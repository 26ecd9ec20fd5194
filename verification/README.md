# osde2e, modelled and proved in Dafny

osde2e creates OpenShift clusters, watches them, tests them and cleans up behind itself. This project models the
algorithms and protocols inside it and proves what they promise, over every input, every answer of the cloud, every
interleaving of goroutines and every order in which Go visits a map. Calls to the cloud, OCM and Kubernetes are
arbitrary inputs. The modules follow the program:

- **Choosing versions.** `Semver` (precedence, sections 9 to 11 of SemVer 2.0.0), `Spi` (releases and lists of them),
  `NextRelease` (stepping X.Y streams), `InstallSelectors` (latest Y and Z above the default), `OcmVersions` (paging, and
  latest X.Y over all pages), `UpgradeSelectors` (the maxima that are found by walking Go maps).
- **Concurrency.** `FanIn` (goroutines, WaitGroup, channel, closer and receiver as small steps) with `TestSummary` (the
  fold behind it); `SharedState` (critical sections under one mutex as small steps) with its two instances `Workloads`
  and `Notifications`.
- **Source to source.** `TypeRewrite`: signatures moved out of package viper keep their meaning.
- **Health checks.** `JobPods` (grouping by job under map order) and `HealthPoll` (the clean-run counters).
- **Batch against simple.** `ReadFile` (line ranges and batched sanitizing), `FailureBlocks` (windows around failures in a
  log), `Scenarios` (top-N ranking).
- **Grammar.** `PromQL`: bracket checking against an inductive grammar.
- **Cleanup.** `ClusterNames` (the five name matchers), `Account` (the log of changing calls), `Instances`, `Storage`,
  `Identity`, `Network` (the deletion loops), `OcmClusters` (paging through the active clusters) and `CleanupRun` (whole runs).
- **Helpers.** `Seqs`, `Text`, `Sorting`.

Loops that update state are methods proved against functions or predicates; a loop over a Go map takes any element that is
left. A run of a concurrent part is a sequence of states in which each step is one step of one goroutine. `dafny verify
dfyconfig.toml` checks everything.

Some properties that one would expect turned out to hold only under a condition. The code is modelled as it is, the
condition is proved exact, and a lemma shows an input on which the property fails:

- If no release above the greatest default is in its next minor stream, latest Y should fail. Instead it answers a version that
  is not above that default exactly if the sorted list is stale: some default but the last is followed by its next minor stream
  before the next default (`Stale`, in the contract of `SelectLatestY`); the input is `StaleExample`. With defaults of one
  precedence a list is never stale (`EqualDefaultsAreNotStale`); and if there is such a release, a greatest one is the answer.
- The upgrade selectors depend on map order, and can miss the greatest candidate, unless a nightly is among the greatest or
  every group of edges with a nightly is followed by one that reaches the top. Exactly then (`Settled`, in
  `EveryAnswerIsRight`); the inputs are `MixedExample` for latest and latest Y and `LatestZCanGoDown` for latest Z, which even
  chooses a version below the installed one.
- A rewritten type keeps its meaning exactly if it is `Faithful` (`PreservedExactly`); the inputs are in `UnfaithfulExamples`:
  an unexported type, a type of the package inside an array, and an import alias that clashes.
- Whatever else is active, the cleanup recognises the instances, buckets, providers and roles of an active cluster exactly if
  the cluster's name is findable: `osde2e-` and a non-empty rest without dashes (`InstanceAndBucketNames`, `OidcUrls`,
  `RoleArnsExactly`). Its VPC `c-x-vpc` is recognised under the same condition on the name (`VpcNamesWithMiddle`), but its VPC
  `c-vpc` exactly if the name is not `osde2e-a-b` with two non-empty parts without dashes (`VpcNames`). Among other active
  clusters a resource can be taken for one of theirs: `ActiveLeadingMeans`, `ActiveOidcMeans`, `ActiveRoleMeans` and
  `ActiveVpcMeans` say of every name and every active set when it is recognised, `DashedNames`, `DashedUrls` and `DashedArns`
  how this depends on the first part behind `osde2e-` for names that begin so. The inputs are in `MistakenNames`
  (bucket `osde2e-a-b-image`, instance `app-x-master-0`) and `MistakenVpcs` (`osde2e-a-b-vpc`, `osde2e-a-b-c-x-vpc`).
- A generated cluster name is findable exactly if the configured name is not `random` and the configured suffix has no dash
  (`ClusterName`). `DashedCluster` is a run that empties a bucket of the active cluster `osde2e-a-b`, and
  `RandomlyNamedCluster` one that terminates an instance of the active cluster `app`.
- In the parts that it reaches, a run that is not dry deletes a resource of osde2e exactly if by its name it is of no cluster of
  an environment that can be reached and listed (`BucketsSparedExactly` and its companions say this kind by kind);
  `UnlistedEnvironment` is a run that empties the bucket of a cluster in an environment that is reached but not listed
  (cmd/osde2e/cleanup/cmd.go:186-190).
- Without failing requests, the listing of an environment's clusters ends exactly if as many clusters arrive as the first page
  announced (`ListingEndsExactly`); if one vanishes in between it need not end (`VanishedCluster`).

Two conditions are exact as well and are met by the program: the early return of the health poll is harmless because its
error window is at least two (`WindowOfTwoIsNeeded`), and the total of a test summary is the sum of its four counts because
every test has one of the four statuses (`TotalIsSum`).

## Model

| member | source | states |
|---|---|---|
| Semver.PrecedenceIsStrictWeak | pkg/common/versions/common/utils.go:91-102 | The comparison that sorting and all selectors rely on is irreflexive, transitive and negatively transitive, and its ties are the versions of equal precedence. |
| Semver.SameMeansSameFields | pkg/common/versions/common/utils.go:61-67 | `Equal` holds exactly for versions that differ in nothing but their text (build metadata, a leading v). |
| Semver.PrecedenceMeans | pkg/common/versions/common/utils.go:91-102 | For any two versions, in their fields: major, minor and patch go first and as numbers; with equal numbers a pre-release is below the release, and pre-releases go by the first identifiers that differ (numeric ones by value and below the others), or the shorter one is below. |
| Semver.NumericIdentifiersDecide | pkg/common/versions/common/utils.go:100 | Pre-releases that first differ in two numeric identifiers are ordered by their values. |
| Semver.TextLessMeans | internal/aggregator/aggregator.go:196-198 | One text is less than another exactly if it is a proper prefix of it or smaller at the first character that differs. |
| Semver.NightlyMeans | pkg/common/versions/common/utils.go:28-37 | A version is nightly for the bucketing exactly if some alphanumeric pre-release identifier contains nightly, and for the upgrade selectors exactly if its text does. |
| Semver.SectionElevenChain | pkg/common/versions/common/utils.go:100 | The example chain of section 11.4 of SemVer 2.0.0 from alpha to the release is strictly ascending. |
| Sorting.StableSortSorts | pkg/common/versions/common/utils.go:92-101 | Under a strict weak order the stable sort is sorted and a permutation of its input. |
| Sorting.LatestIsLastGreatest | pkg/common/cluster/healthchecks/pods.go:129-135 | The last element of a stable sort is an element that none is above and all later elements are below. |
| Sorting.SortedPermutationsTie | internal/aggregator/aggregator.go:196-198 | Any two sorted permutations of one list have tied elements at every position, so a sort that is not stable is determined up to ties. |
| Sorting.InsertInPlace | pkg/common/versions/common/utils.go:92-101 | Moving an element down in place gives the insertion behind all elements that are not above it and touches nothing behind. |
| Sorting.SortStableInPlace | pkg/common/versions/common/utils.go:92-101 | In-place sorting of an array gives the one stable sort of its contents. |
| Spi.FindVersion | pkg/common/spi/version.go:96-110 | All releases with the given major, minor and patch, in list order. |
| Spi.Default | pkg/common/spi/version.go:114-126 | The override if there is one, else the first default, and none only if no release is a default. |
| NextRelease.ParsePrinted | pkg/common/versions/common/utils.go:104-109 | Printing X.Y and parsing it back is the identity, so the parse errors of the stepping loop are unreachable for listed versions. |
| NextRelease.Bucket | pkg/common/versions/common/utils.go:17-39 | One bucket for each stream, holding the earliest winner: it is nightly if any release of its stream is, and no release of the stream that is nightly like it is of higher precedence. |
| NextRelease.ParseKeys | pkg/common/versions/common/utils.go:43-51 | In whatever order the bucket map is visited, parsing never fails and gives each stream of the list once. |
| NextRelease.SortedStreams | pkg/common/versions/common/utils.go:43-53 | The sorted keys are the streams of the list in strictly ascending order. |
| NextRelease.PositionIsRank | pkg/common/versions/common/utils.go:61-76 | Between two positions of the sorted streams lie exactly as many distinct streams of the list as the positions differ. |
| NextRelease.NextReleaseAfterGivenVersion | pkg/common/versions/common/utils.go:16-88 | Success exactly if the given stream is listed and at least n distinct streams follow; the result is of the stream with exactly n streams above the given one and up to it, nightly if any release of that stream is, and of the highest precedence among those that are nightly like it; each error exactly in its case, the missing-bucket error never. |
| NextRelease.RankDeterminesStream | pkg/common/versions/common/utils.go:76-81 | The number of streams in between determines the stream. |
| NextRelease.PermutationInvariance | pkg/common/versions/common/utils.go:17-88 | Permuting the list keeps success, and the result up to versions of equal precedence that are alike nightly or not. |
| NextRelease.SelectionIsUnique | pkg/common/versions/common/utils.go:76-87 | For one list the selected version is determined: the earliest winner of the determined stream. |
| NextRelease.SelectedIsEarliest | pkg/common/versions/common/utils.go:30-38 | Of the releases of the stream that tie with it the selected one is the first in the list. |
| NextRelease.SelectAfterDefault | pkg/common/versions/installselectors/next_version_after_prod_default.go:20-33 | For any configured count of at least 0, the only counts the selector is used for, it steps exactly that many streams up from the default of the list, and fails exactly if there is no default, it is not listed or too few streams follow. |
| InstallSelectors.SortVersions | pkg/common/versions/common/utils.go:91-102 | The caller's slice itself becomes its stable sort: sorted and a permutation. |
| InstallSelectors.SelectLatestY | pkg/common/versions/installselectors/latest_y_from_default_selector.go:28-69 | On every list: success exactly if in its stable sort some release comes next after the default in front of it, and then a greatest such. For a greatest default d that is a greatest release above d in the next minor stream whenever there is one; if there is none, it fails exactly when the stable sort of the list is not stale, and otherwise answers nothing above d. It fails without default, and leaves the slice its stable sort. |
| InstallSelectors.EqualDefaultsAreNotStale | pkg/common/versions/installselectors/latest_y_from_default_selector.go:42-62 | With one default, or several of one precedence, a sorted list is never stale, so latest Y fails exactly when it should. |
| InstallSelectors.StaleExample | pkg/common/versions/installselectors/latest_y_from_default_selector.go:42-62 | On the list 4.1.0 default, 4.2.0, 4.3.0 default nothing follows the greatest default, and yet latest Y answers, and the only possible answer is 4.2.0, below that default. |
| InstallSelectors.SelectLatestZ | pkg/common/versions/installselectors/latest_z_from_default_selector.go:28-64 | For any list with a default: success exactly if something is above the greatest default in its own minor stream, and then a greatest such; the slice becomes its stable sort. |
| InstallSelectors.LastDefaultIsGreatest | pkg/common/versions/installselectors/latest_z_from_default_selector.go:40-56 | The last default of the sorted slice is a greatest default, and everything above it comes later. |
| OcmVersions.AllPages | pkg/common/providers/ocmprovider/versions.go:33-96 | The paging loop asks for one page after the other until a request fails or, after max(1, ceil(T/100)) pages of 100, all T items are seen, and keeps each admissible one once, in order. |
| OcmVersions.Versions | pkg/common/providers/ocmprovider/versions.go:33-108 | Against a server with T items in pages of 100, one request for each page (at least one); as many releases as there are enabled items of the channel or the stable one with a version, and exactly those, in descending order; nothing if a request fails. |
| OcmVersions.LatestXYOverAllPages | pkg/common/versions/installselectors/latest_xy.go:26-43 | The first match of that list is a greatest admissible version of X.Y over all pages, and there is none only if no item qualifies. |
| UpgradeSelectors.SelectLatest | pkg/common/versions/upgradeselectors/latest_version_selector.go:27-45 | The answer is one that some order of visiting the edge maps of all entries of the installed version gives. |
| UpgradeSelectors.SelectLatestY | pkg/common/versions/upgradeselectors/latest_y_selector.go:27-49 | The same, with edges of the next minor stream only. |
| UpgradeSelectors.SelectLatestZ | pkg/common/versions/upgradeselectors/latest_z_selector.go:27-55 | The same, with edges of the own minor stream only and the check on equality. |
| UpgradeSelectors.EveryAnswerIsRight | pkg/common/versions/upgradeselectors/latest_z_selector.go:32-54 | Every possible answer is a greatest candidate above the installed version, or an error if there is none, if and only if the candidates are settled (for latest and latest Y: or none is above). |
| UpgradeSelectors.UniformCandidatesAreSafe | pkg/common/versions/upgradeselectors/latest_version_selector.go:32-44 | Candidates all nightly or all not nightly make latest and latest Y right for every map order, and candidates without nightlies latest Z. |
| UpgradeSelectors.AnswersAreOffered | pkg/common/versions/upgradeselectors/latest_z_selector.go:27-55 | Every answer is an upgrade of an entry with the major, minor and patch of the installed version, for latest Y of the next minor stream and for latest Z of its own. |
| UpgradeSelectors.UniformAnswers | pkg/common/versions/upgradeselectors/latest_y_selector.go:27-49 | If none of these upgrades is nightly (or, besides latest Z, all are): an error exactly if none is above the installed version, and else one that none is above. |
| UpgradeSelectors.PlainScanKeepsTheFirst | pkg/common/versions/upgradeselectors/latest_version_selector.go:32-39 | Of edges of equal precedence that are not nightly the one visited first is kept. |
| UpgradeSelectors.UnsettledHasBadOrder | pkg/common/versions/upgradeselectors/latest_version_selector.go:32-39 | For candidates that are not settled some map order ends below the top. |
| UpgradeSelectors.MixedAnswers | pkg/common/versions/upgradeselectors/latest_version_selector.go:32-39 | For latest and latest Y, with a nightly below a candidate that is none in one edge map both are possible answers. |
| UpgradeSelectors.MixedExample | pkg/common/versions/upgradeselectors/latest_y_selector.go:32-43 | So for the installed version 4.1.0 with edges to 4.2.5 and 4.2.1-nightly: both are possible answers, and the nightly is a wrong one. |
| UpgradeSelectors.LatestZCanGoDown | pkg/common/versions/upgradeselectors/latest_z_selector.go:39-54 | A concrete nightly edge below the installed version that latest Z chooses, which is wrong. |
| FanIn.StepKeepsInv | internal/aggregator/aggregator.go:147-171 | Every step of main, of a file's goroutine and of the closer keeps the invariant that ties WaitGroup, channel, closing and what has been sent. |
| FanIn.SafetyAndProgress | internal/aggregator/aggregator.go:147-171 | In every state of every interleaving: no send on a closed channel or other panic, a sender finds room, some step is possible until everything has finished, and main returns only behind all others. |
| FanIn.RunsAreFinite | internal/aggregator/aggregator.go:147-171 | No run has more than 6n + 4 steps. |
| FanIn.ReceivedExactlyOnce | internal/aggregator/aggregator.go:164-171 | When the range loop has ended each file's result has been received exactly once. |
| FanIn.SentInOrder | internal/aggregator/aggregator.go:147-171 | Results are received in the order in which they were sent. |
| TestSummary.CollectTestResults | internal/aggregator/aggregator.go:164-202 | The loops compute the summary of all tests in order of arrival, and a list of failures sorted by name that is a permutation of exactly the failed and errored tests. |
| TestSummary.TotalIsSum | internal/aggregator/aggregator.go:173-194 | The total is the sum of passed, failed, skipped and errored exactly if every status is one of the four. |
| TestSummary.CountsMean | internal/aggregator/aggregator.go:173-194 | Passed, failed, skipped and errored are each the number of tests with exactly that status. |
| TestSummary.TestsAre | internal/aggregator/aggregator.go:164-183 | The tests counted are those of the suites of the files that parse, each under the name of its suite. |
| TestSummary.FailuresAreTheFailedTests | internal/aggregator/aggregator.go:184-192 | There are failed + errored failures, and they are exactly those tests, with their suite names. |
| TestSummary.ArrivalOrderDoesNotMatter | internal/aggregator/aggregator.go:164-202 | Any two arrival orders give one summary and the same failures. |
| TestSummary.SortedNamesAreUnique | internal/aggregator/aggregator.go:196-198 | And the sorted failure lists have the same name at every position, however the unstable sort orders equal names. |
| TestSummary.EveryRunGivesOneSummary | internal/aggregator/aggregator.go:147-202 | So every interleaving of the fan-in gives the summary and failures of the files taken in order. |
| TypeRewrite.DefinitionTracker.PackageDefinesType | pkg/common/concurrentviper/gen/main.go:279-301 | True exactly for names that are not predeclared and that some file of the package declares. |
| TypeRewrite.DefinitionTracker.RewriteType | pkg/common/concurrentviper/gen/main.go:109-146 | The result is the rewriting, and exactly the packages selected in the type become needed. |
| TypeRewrite.DefinitionTracker.Imports | pkg/common/concurrentviper/gen/main.go:148-162 | One import for each needed package, with its recorded path, in any order. |
| TypeRewrite.Generate | pkg/common/concurrentviper/gen/main.go:197-272 | All fields are rewritten, and the emitted imports are those of every package mentioned, of sync and of viper. |
| TypeRewrite.EmittedPaths | pkg/common/concurrentviper/gen/main.go:148-162 | Besides the packages mentioned exactly sync and viper are imported, each by its recorded path. |
| TypeRewrite.PreservedExactly | pkg/common/concurrentviper/gen/main.go:109-146 | For every type expression of any shape: rewritten, it denotes in the generated package what the original denoted in viper if and only if it is faithful. |
| TypeRewrite.RewriteTwice | pkg/common/concurrentviper/gen/main.go:109-146 | Rewriting twice is rewriting once. |
| TypeRewrite.GeneratedTypesPreserved | pkg/common/concurrentviper/gen/main.go:148-272 | Over a whole run every package that a rewritten type mentions is imported, and with those imports its meaning is preserved if and only if it is faithful. |
| TypeRewrite.UnaliasedIsFaithful | pkg/common/concurrentviper/gen/main.go:95-99 | With distinct, unaliased imports a type of identifiers, selectors, pointers, variadics and functions is faithful if and only if the types of the package that it names itself are exported and hide no predeclared one; the package may declare others. |
| TypeRewrite.UnfaithfulExamples | pkg/common/concurrentviper/gen/main.go:109-146 | An unexported type, an exported one inside an array and a selector through a clashing alias lose their meaning; a pointer to the exported one keeps it. |
| JobPods.GroupPods | pkg/common/cluster/healthchecks/pods.go:98-125 | Fails exactly if a pod has no job name; otherwise each (namespace, job) group holds its pods in input order. |
| JobPods.CheckJobPods | pkg/common/cluster/healthchecks/pods.go:95-153 | Independent of map order: an error exactly if a pod has no job name, or in some group the pod that was created last (the later one on a tie) is neither succeeded nor pending; otherwise, each as often as it occurs, exactly the pods not succeeded of groups where that pod is pending. |
| JobPods.LatestOfMeans | pkg/common/cluster/healthchecks/pods.go:129-135 | The pod by which a group is judged: none of the group was created after it, and every later one in the list was created before it. |
| JobPods.JobKeyMeans | pkg/common/cluster/healthchecks/pods.go:108-117 | The key of a job name: a name of at most 52 characters with a dash is the key, a dash and a text without dashes; any other name is its own key. |
| JobPods.CheckPods | pkg/common/cluster/healthchecks/pods.go:49-93 | Succeeds exactly if something is listed, every kept pod outside jobs is succeeded or pending, and the job check succeeds; the result is the pending ones and those the job check reports. |
| JobPods.CheckPodHealth | pkg/common/cluster/healthchecks/pods.go:31-47 | Healthy exactly if every matching pod is of a job, running or completed; an error exactly if nothing is listed or a matching pod outside jobs is failed or unknown. |
| HealthPoll.CountersMean | pkg/common/cluster/clusterutil.go:243-286 | After any polls cleanRuns is the number of clean polls at the end and errRuns the number of errors since the last clean one; errors counted mean no clean run counted. |
| HealthPoll.WindowOfTwoIsNeeded | pkg/common/cluster/clusterutil.go:262-270 | The early return keeps no stale credit if and only if the error window is at least two. |
| HealthPoll.HealthPoller.Poll | pkg/common/cluster/clusterutil.go:243-287 | One poll: the new counters, whether polling is over, and which status is sent: the unhealthy one on an error from the 20th on, else the failed checks unless they are the status already. |
| HealthPoll.PollUntilHealthy | pkg/common/cluster/clusterutil.go:243-290 | Polling ends exactly at the first point at which the last cleanRunsNeeded polls were all clean, and the unhealthy status is sent at exactly the polls with an error and 20 errors since the last clean poll. |
| PromQL.EmptiedIffBalanced | pkg/krknai/params_validation.go:22-46 | The stack loop ends with an empty stack on exactly the texts whose brackets are derivable in the grammar of balanced words. |
| PromQL.SurvivesIffCompletable | pkg/krknai/params_validation.go:22-41 | The loop rejects a closer exactly if no continuation of the brackets could be balanced. |
| PromQL.ValidatePromQL | pkg/krknai/params_validation.go:16-48 | Accepted if and only if not all white space and balanced; each of the three errors exactly in its case, and the bracket reported is the closer with which the text can no longer be completed though it could before, or the opener that nothing closes with a balanced text behind it. |
| PromQL.IsSpaceMeans | pkg/krknai/params_validation.go:17 | White space are the 25 characters that Unicode gives that property. |
| ReadFile.SanitizeContent | internal/sanitizer/sanitizer.go:135-177 | Fails exactly on contents over the limit; otherwise the content that the rules leave (`OneRule`, `RulesCompose`), with the match count and names. |
| ReadFile.NoRuleMeansNoMatch | internal/sanitizer/sanitizer.go:141-162 | No rule is reported exactly if no match is counted, exactly if no rule matches the content itself, and then the content is unchanged. |
| ReadFile.OneRule | internal/sanitizer/sanitizer.go:146-156 | One rule replaces its matches if it has any and leaves the content alone otherwise, and reports its matches and its name. |
| ReadFile.RulesCompose | internal/sanitizer/sanitizer.go:146-156 | Rules behind others work on what those have left, and matches and names add up. |
| ReadFile.SanitizedIsClean | internal/sanitizer/sanitizer.go:146-156 | If no replacement leaves a match of its own rule or makes one for another, no rule matches the sanitized content, and sanitizing again changes and reports nothing. |
| ReadFile.SanitizeBatch | internal/sanitizer/sanitizer.go:112-132 | Succeeds exactly if the lengths agree and every content fits, and then gives each content's own result in order; otherwise the mismatch or the first content that is too large. |
| ReadFile.SanitizeAndFormatLines | internal/llm/tools/read_file.go:260-296 | Whichever batches fall back, the output is every line sanitized on its own, in order, with its number. |
| ReadFile.FormattedReadsBack | internal/llm/tools/read_file.go:260-296 | A formatted line is its number, a tab and the line, sanitized if it is not too large and with a mark behind it if it is. |
| ReadFile.LinesInRangeMeans | internal/llm/tools/read_file.go:202-239 | A range holds exactly the lines whose numbers lie in it, ascending. |
| ReadFile.ReadLinesInRange | internal/llm/tools/read_file.go:202-239 | The scanning loop reads that range. |
| ReadFile.ReadFileWithLineRange | internal/llm/tools/read_file.go:180-199 | The joined lines of the range, each sanitized on its own, exactly if the range has a line of the file; otherwise the message for an empty range or an empty file. |
| ReadFile.ReadingComposes | internal/llm/tools/read_file.go:180-319 | Reading a..b and then b+1..c says what reading a..c says, although batches are cut at different lines. |
| FailureBlocks.ExtractFailureBlocks | pkg/common/slack/reporter.go:285-316 | The blocks are the texts of the windows of markers that are each the first at or after the end of the window before; there are at most three, and fewer only if no marker is left. |
| FailureBlocks.BlocksAreUnique | pkg/common/slack/reporter.go:288-313 | That description determines the blocks. |
| FailureBlocks.WindowsInOrder | pkg/common/slack/reporter.go:293-301 | Windows are not empty, come in order, have at most 35 lines and overlap in at most the 5 lines of context. |
| FailureBlocks.MarkedLinesAreShown | pkg/common/slack/reporter.go:288-313 | Every marked line lies in a block, unless there are three and it comes behind the last. |
| FailureBlocks.MarkedMeans | pkg/common/util/util.go:36-45 | A line is marked exactly if [FAILED], error, Error or ERROR occurs in it. |
| FailureBlocks.WindowMeans | pkg/common/slack/reporter.go:293-301 | A window holds the five lines in front of the marked one, that line and the 29 behind it, as far as they exist. |
| FailureBlocks.BlockIsItsWindow | pkg/common/slack/reporter.go:303-310 | Splitting a block at its line ends gives back exactly the lines of its window. |
| FailureBlocks.BulletIsRedundant | pkg/common/util/util.go:42-44 | The marker with a bullet adds nothing to the one without. |
| Scenarios.ProcessScenarios | pkg/krknai/aggregator/aggregator.go:210-279 | Without scenarios nothing changes; otherwise the failed ones in order, a top list, and the figures: totals that add up, the greatest generation, every kind once, the fitness of the first of the top list and the average. |
| Scenarios.NothingIsLost | pkg/krknai/aggregator/aggregator.go:222-236 | Failed and successful scenarios together are the scenarios. |
| Scenarios.TopScenarios | pkg/krknai/aggregator/aggregator.go:244-258 | The list has N successful scenarios or all of them, in descending order, and no omitted one is fitter than a listed one. |
| Scenarios.FirstIsMaximum | pkg/krknai/aggregator/aggregator.go:262-266 | With N of at least 1 and a successful scenario the list is not empty, and the reported maximum is the fitness of a successful scenario that none exceeds. |
| Scenarios.AverageBetween | pkg/krknai/aggregator/aggregator.go:263 | The average lies between any bounds of the fitness values, in particular their minimum and maximum. |
| Scenarios.TotalAddsUp | pkg/krknai/aggregator/aggregator.go:263 | The total that is averaged is additive, and the fitness itself for one scenario. |
| Scenarios.TopFitnessIsUnique | pkg/krknai/aggregator/aggregator.go:244-258 | However the unstable sort orders ties, the fitness at each position of the top list is the same. |
| SharedState.RunKeepsInv | pkg/common/helper/helper.go:379-385 | In every state of every interleaving at most one call is in its critical section, and the shared value and all results are those of the calls one after the other in lock order. |
| SharedState.RunsEnd | pkg/common/helper/helper.go:379-385 | Runs take at most four steps for each call, are never stuck before all calls are done, and end when they are. |
| SharedState.OneAfterTheOther | pkg/e2e/adhoctestimages/adhoctestimages.go:38-44 | At the end every call has been applied exactly once, in lock order, and has returned what it returns then. |
| Workloads.NoEntryIsLost | pkg/common/helper/helper.go:379-385 | Whatever the interleaving, each name ends with the project of the last call for it in lock order, and other names keep what they had. |
| Workloads.EveryNameIsThere | pkg/common/helper/helper.go:379-385 | So the name of every call is in the final map, with the project of some call for that name. |
| Notifications.NothingLostOrTwice | pkg/e2e/adhoctestimages/adhoctestimages.go:38-44 | The drained batches in lock order followed by the pending queue are exactly the queued notifications in lock order, each once. |
| Notifications.DrainedThenPending | pkg/e2e/adhoctestimages/adhoctestimages.go:144-152 | After any sequence of calls drained and pending notifications together are the queued ones, in order. |
| Notifications.DrainEmpties | pkg/e2e/adhoctestimages/adhoctestimages.go:144-152 | A drain returns everything queued since the one before it and leaves nothing pending. |
| ClusterNames.LeadingMeans | pkg/common/aws/ec2.go:26-27 | The pattern finds the cluster c in exactly the names that begin with c and a dash, where c is osde2e- and a non-empty text without dashes. |
| ClusterNames.ActiveLeadingMeans | pkg/common/aws/s3.go:37-49 | For every name and every active set: an instance or bucket is recognised if and only if its name is that of some active cluster. |
| ClusterNames.InstanceAndBucketNames | pkg/common/aws/ec2.go:23-37 | For every cluster name c: c-rest is recognised whatever else is active if and only if c is findable. |
| ClusterNames.DashedNames | pkg/common/aws/s3.go:37-49 | For every s and every active set: osde2e-s-rest is recognised if and only if osde2e- with the part of s in front of its first dash is active. |
| ClusterNames.MistakenNames | pkg/common/aws/s3.go:37-49 | The bucket osde2e-a-b-image is not recognised for osde2e-a-b, but is if osde2e-a is active too; the instance app-x-master-0 is not recognised for app. |
| ClusterNames.ActiveOidcMeans | pkg/common/aws/iam.go:23-36 | For every url and every active set: recognised if and only if the url begins with c-oidc- for some findable active c. |
| ClusterNames.OidcUrls | pkg/common/aws/iam.go:23-36 | For every cluster name c: c-oidc-rest is recognised whatever else is active if and only if c is findable. |
| ClusterNames.DashedUrls | pkg/common/aws/iam.go:23-36 | For every s and every active set: osde2e-s-oidc-rest is recognised if and only if the first part of s is that of an active cluster and -oidc- follows it. |
| ClusterNames.ActiveRoleMeans | pkg/common/aws/iam.go:40-54 | For every ARN and every active set: recognised if and only if the leftmost place with a findable name and a dash has that of an active cluster. |
| ClusterNames.RoleArnsExactly | pkg/common/aws/iam.go:40-54 | For every cluster name c: the role arn:aws:iam::account:role/c-rest is recognised whatever else is active if and only if c is findable, though the pattern is not anchored. |
| ClusterNames.DashedArns | pkg/common/aws/iam.go:40-54 | For every s and every active set: the role osde2e-s-rest is recognised if and only if the first part of s is that of an active cluster or, if s begins with a dash or is empty, s-rest is recognised by itself. |
| ClusterNames.ActiveVpcMeans | pkg/common/aws/vpc.go:140-150 | For every VPC name and every active set: recognised if and only if it is c-x-vpc for a findable active c and x, or c-vpc for an active c that is not two such parts. |
| ClusterNames.VpcNames | pkg/common/aws/vpc.go:140-150 | For every cluster name c: c-vpc is recognised whatever else is active if and only if c is not osde2e-a-b with non-empty a and b without dashes. |
| ClusterNames.VpcNamesWithMiddle | pkg/common/aws/vpc.go:140-150 | For every cluster name c and every x: c-x-vpc is recognised whatever else is active if and only if c is findable and x is non-empty and has no dash. |
| ClusterNames.MistakenVpcs | pkg/common/aws/vpc.go:140-150 | osde2e-a-b-vpc is not recognised for osde2e-a-b, but is if osde2e-a is active too; osde2e-a-b-c-x-vpc is not recognised for osde2e-a-b-c. |
| ClusterNames.RandomStr | pkg/common/util/util.go:16-23 | A text of the given length over the 36 characters picked, so without a dash. |
| ClusterNames.DrawnIsNotFindable | pkg/common/cluster/clusterutil.go:531-548 | No name that the random branch can draw is findable. |
| ClusterNames.RandomName | pkg/common/cluster/clusterutil.go:530-555 | The first drawn name of at most 15 characters. |
| ClusterNames.ClusterName | pkg/common/cluster/clusterutil.go:526-562 | The name is findable if and only if the configured name is not random and the configured suffix has no dash; without a suffix it is osde2e- and five characters. |
| Instances.TerminateEC2Instances | pkg/common/aws/ec2.go:114-169 | One termination for each instance with a condemning name tag, in order, none in a dry run; the counters are the terminations that succeeded and failed. |
| Storage.CleanupS3Buckets | pkg/common/aws/s3.go:69-119 | Each doomed bucket is emptied, and deleted if and only if that succeeds; others are not touched; the counters are exact. |
| Identity.CleanupOpenIDConnectProviders | pkg/common/aws/iam.go:56-118 | One deletion for each doomed provider; the counters are exact, a provider that cannot be read counting as failed. |
| Identity.CleanupOsde2eRole | pkg/common/aws/iam.go:235-274 | It is removed from profiles in its profile list only, inline policies are deleted only if in its inline list, policies detached only if in its attached list, then the role is deleted; nothing in a dry run; deleted and failed are exact. |
| Identity.PartsOneByOne | pkg/common/aws/iam.go:235-262 | Every profile is tried even if one fails; inline policies are begun only if the profiles could be listed and all removals succeeded, and then all tried; attached policies likewise behind them, and the role behind those. |
| Identity.CleanupRoles | pkg/common/aws/iam.go:276-304 | This for each doomed role and nothing for others; each role counts at most once. |
| Identity.RoleDeletedLast | pkg/common/aws/iam.go:255-273 | A role is deleted last, and only after its profiles, inline and attached policies were listed and each of them was removed by its own kind of call with success. |
| Network.FindOrphans | pkg/common/aws/vpc.go:42-96 | The stacks of the named VPCs that are not of an active cluster and exist, in order. |
| Network.CleanupVPCs | pkg/common/aws/vpc.go:15-138 | Each orphaned stack is deleted and, if that is accepted, awaited; the counters are exact; nothing in a dry run. |
| Network.CleanupSecurityGroups | pkg/common/aws/securitygroups.go:43-186 | In VPCs whose stack could not be deleted each group but the default loses its rules and is deleted even if that fails; the counters are exact. |
| Network.GroupCallsMean | pkg/common/aws/securitygroups.go:126-178 | Unless it is the default one or this is a dry run, a group loses the ingress and egress rules it has and is then deleted. |
| Network.NameTagMeans | pkg/common/aws/vpc.go:45-59 | The name of a VPC is the value of its first tag called Name, and there is none without such a tag. |
| CleanupRun.Run | cmd/osde2e/cleanup/cmd.go:282-382 | Of the modelled parts: a run logs exactly the work of the parts that are asked for and reached, each going over all its resources as its own contract says, in order; a part is reached exactly if all parts before it could list theirs, and the run fails exactly if one cannot. |
| CleanupRun.PartsNotReached | cmd/osde2e/cleanup/cmd.go:282-382 | A part that is not asked for does nothing, nor does one behind a part that cannot list its resources. |
| CleanupRun.PartsInOrder | cmd/osde2e/cleanup/cmd.go:282-382 | In the log of a run the parts come one after the other, security groups in front of the stacks of VPCs. |
| CleanupRun.RunsAreSafe | cmd/osde2e/cleanup/cmd.go:282-382 | Whatever the cloud answers, everything a run calls is allowed (`Touchable`: a policy or profile only if it is in that list of a doomed role), and a dry run calls nothing. |
| CleanupRun.BucketsCalledExactly | pkg/common/aws/s3.go:84-116 | A run that is not dry and reaches the buckets empties exactly the doomed listed buckets, and deletes exactly those whose emptying succeeded. |
| CleanupRun.InstancesCalledExactly | pkg/common/aws/ec2.go:130-163 | A run that reaches them terminates exactly the listed instances with a condemning name tag. |
| CleanupRun.ProvidersCalledExactly | pkg/common/aws/iam.go:79-115 | It deletes exactly the doomed listed providers. |
| CleanupRun.RolesCalledExactly | pkg/common/aws/iam.go:235-301 | It deletes a role exactly if it is doomed and everything attached to it was listed and removed. |
| CleanupRun.RunDeletesRoleLast | pkg/common/aws/iam.go:235-301 | In the log of a whole run a role is deleted only behind the successful removal of every profile, inline and attached policy listed for it. |
| CleanupRun.StacksCalledExactly | pkg/common/aws/vpc.go:42-110 | It deletes exactly the existing stacks of named VPCs that are not of active clusters. |
| CleanupRun.GroupsCalledExactly | pkg/common/aws/securitygroups.go:73-183 | It deletes exactly the groups other than the default in VPCs whose stack could not be deleted. |
| CleanupRun.CollectActiveClusters | cmd/osde2e/cleanup/cmd.go:166-200 | Fails exactly if no environment can be reached; otherwise the active clusters are those of the environments that could be listed, and no others. |
| CleanupRun.RunCommand | cmd/osde2e/cleanup/cmd.go:276-382 | Of the modelled parts: the command runs on the clusters collected if an environment can be reached, and otherwise fails and calls nothing; it fails exactly then or if a part cannot list its resources; everything it calls is allowed. |
| CleanupRun.BucketsSparedExactly | pkg/common/aws/s3.go:84-116 | In a run of the command that is not dry and reaches the buckets, a listed bucket (with osde2e or managed-velero in its name, besides the one for logs) is emptied if and only if no environment that can be reached and listed has a cluster that the bucket is named after. |
| CleanupRun.InstancesSparedExactly | pkg/common/aws/ec2.go:130-163 | The same with instances and their name tags, |
| CleanupRun.ProvidersSparedExactly | pkg/common/aws/iam.go:79-115 | with providers and their urls, |
| CleanupRun.RolesSparedExactly | pkg/common/aws/iam.go:235-301 | with roles and their ARNs, if everything attached was removed, |
| CleanupRun.StacksSparedExactly | pkg/common/aws/vpc.go:42-110 | with the stacks of VPCs, |
| CleanupRun.GroupsSparedExactly | pkg/common/aws/securitygroups.go:73-183 | and with the security groups in VPCs whose stack could not be deleted. |
| CleanupRun.UnlistedEnvironment | cmd/osde2e/cleanup/cmd.go:183-200 | With two reachable environments, the second of which cannot be listed, every such run empties the bucket of its cluster. |
| CleanupRun.DashedCluster | pkg/common/aws/s3.go:37-49 | Every such run empties the bucket of the active cluster osde2e-a-b. |
| CleanupRun.RandomlyNamedCluster | pkg/common/aws/ec2.go:130-163 | Every run that reaches the instances and is not dry terminates the instance app-x-master-0 of the active cluster app. |
| CleanupRun.ActiveBuckets | pkg/common/aws/s3.go:84-116 | No run empties or deletes the bucket c-rest of an active cluster c with a findable name. |
| CleanupRun.ActiveInstances | pkg/common/aws/ec2.go:130-163 | No run terminates an instance all of whose name tags are those of active clusters with findable names. |
| CleanupRun.ActiveProviders | pkg/common/aws/iam.go:79-115 | No run deletes a provider whose url is c-oidc-rest for an active cluster c with a findable name. |
| CleanupRun.ActiveRoles | pkg/common/aws/iam.go:276-301 | No run takes anything from, or deletes, a role whose ARN is that of c-rest for an active cluster c with a findable name. |
| CleanupRun.ActiveStacks | pkg/common/aws/vpc.go:67-96 | No run deletes the stack of an active cluster, whatever the VPCs are called. |
| CleanupRun.ActiveGroups | pkg/common/aws/securitygroups.go:68-94 | No run touches a security group that is only in VPCs that are recognised as those of active clusters by `VpcOf`. |
| OcmClusters.ListClusters | pkg/common/providers/ocmprovider/cluster.go:647-682 | Whatever the answers, the loop ends at the first page whose request fails, or with which there was an empty page and as many clusters as the first page stated; the result is nothing or all clusters received, in order. |
| OcmClusters.ListingEndsExactly | pkg/common/providers/ocmprovider/cluster.go:650-679 | If no request fails and nothing is behind page k, the loop ends if and only if the first k pages hold as many clusters as the first one stated. |
| OcmClusters.UnchangedListing | pkg/common/providers/ocmprovider/cluster.go:650-679 | A server whose clusters do not change is asked for each of its pages of 100 and one more (for one page if it has no clusters), and all its clusters are listed. |
| OcmClusters.VanishedCluster | pkg/common/providers/ocmprovider/cluster.go:654-671 | If a cluster of the first of two pages disappears in between, so that the second is empty, the loop never ends. |
| OcmClusters.ListOwnedClusters | pkg/common/providers/ocmprovider/cluster.go:688-740 | Of the clusters listed exactly those that the account owns, in order; nothing if the listing or that of the subscriptions fails. |

## Left out

- Network, cloud, OCM, Kubernetes, Slack, file and terminal input and output; error texts, log messages and summaries; retries, which count as part of one answer.
- CleanupRun.Run: leaves out the parts for expired clusters, for one cluster and for elastic IPs, which do not go by name; they too end a run early if they fail (cmd/osde2e/cleanup/cmd.go:301-346, 384-391).
- CleanupRun.RunCommand: leaves out the same parts, and the failures on the configuration and on `--older-than` before anything is called (cmd/osde2e/cleanup/cmd.go:256-262).
- ClusterNames.ClusterName: the random branch has to draw a short enough name at some time, without which the source does not end either.
- OcmClusters.ListClusters: is stated for answers with which the source ends; `ListingEndsExactly` says when that is. Converting a cluster counts as part of the answer, and the page size of an unchanged server is 100.
- OcmClusters.ListOwnedClusters: the identifiers of the owned clusters are an input; paging through the subscriptions is not modelled.
- semver parsing: only X.Y is parsed, without leading zeros and limits of width; the Masterminds semver package is not part of this model, and precedence follows SemVer 2.0.0.
- Spi.FindVersion: takes the parsed version instead of its text.
- Releases and version lists are values: nil entries, the builders and the in-place `AddUpgradePath` are not modelled. The count of streams to step is not negative, as the selector ensures.
- OcmVersions.Versions: the server holds the same items throughout.
- Go's string length and order are taken in characters instead of bytes, and integers are unbounded.
- Regular expressions are written out by hand; the rules of the sanitizer are arbitrary functions. Audit logging is left out.
- TypeRewrite.DefinitionTracker.RewriteType: builds a new expression where the source overwrites fields of shared syntax nodes. Exported means an ASCII upper-case initial. Generic type expressions count as shapes that are not descended into.
- TestSummary.CollectTestResults: durations are integers. Sort functions that are not stable may give any sorted permutation.
- HealthPoll.HealthPoller.Poll: the cluster object is fetched once and its properties exist; its status is set even if the provider refuses, as in pkg/common/providers/ocmprovider/cluster.go:1187-1198.
- JobPods.CheckPodHealth: the namespace, prefix and age filters are one arbitrary predicate. `PodErrorTracker` restarts its count with each call and is left out.
- Scenarios.ProcessScenarios: scores are real numbers; rounding and NaN are not modelled.
- Workloads.NoEntryIsLost: reads and writes whole maps; the map that Go shares with readers outside the mutex, and several helpers with mutexes of their own, are not modelled. Reads and writes are separate steps, and each goroutine's several calls are covered as separate calls.
- Instances.TerminateEC2Instances: looks at the first instance of each reservation, as the source does; a reservation without instances and tags without key or value are not modelled. Names of tags, instances and roles that the cloud should keep unique need not be: the safety lemmas say what holds for all of one identifier.
- Network.CleanupVPCs: whether a stack exists is known with its VPC; waiting for the deletion is one call that succeeds or fails.
- Choosing cluster image sets, claiming clusters of the reserve, notifications, reports, Terraform and the test suites themselves: plumbing, or no property holds across calls.

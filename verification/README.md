# Verification of the router daemon's hard parts

This project models, in Dafny, the parts of the daemon whose correctness rests on more than one
function, and proves what they promise. To verify it, allow the solver enough time, for instance with
`dafny verify --resource-limit 2000000 --verification-time-limit 0 dfyconfig.toml`.

| files | component |
|---|---|
| `BenchScheduler`, `BenchRuns`, `BenchTheorems`, `BenchAnswers`, `BenchSteps` | the adaptive benchmark: workers sharing a locked job and queue, a memory monitor, a coordinator |
| `ServiceProbes`, `ProbeMeanings` | the service-probe pipeline: prefix selection, fail-fast, the ping gate and the verdicts |
| `DomainNames`, `NetworkText`, `Cidr`, `PublicRanges`, `GeoSource`, `GeoPrint`, `GeoReading`, `IpForms` | reading a geographic source list, what its lines mean, and the inverse; the canonical address texts |
| `GeoLists`, `GeoListLaws`, `GeoArtifacts`, `GeoReload`, `GeoMeanings`, `GeoWitnesses` | generating, validating and reloading the lists, and sources for which that fails |
| `GeoDisk`, `GeoStoreLaws`, `GeoStoreRuns`, `GeoVersions`, `GeoOutcomes`, `GeoStore` | the durable store of generations |
| `LoginThrottle`, `LoginIsolation` | login throttling |
| `StateTransaction` | three-way rollback of JSON state |
| `PoolScheduling` | the pool cursor and its event log |
| `PortItems`, `PortMeanings` | the port-list normaliser |
| `Wrappers`, `Collections`, `Ordered`, `Text` | shared: options and results, sums over maps, ordered sets, string operations |

## How the components are modelled

**Benchmark run.** `SharedJob` holds the job and the queue; each of its methods is one critical
section and is proved equal to a function on job values. `System` is a whole run: one step for each
critical section or atomic flag access of each worker, the monitor, the coordinator, or a user who
cancels. `Inv` is inductive over every step. Assumed: profile ids are distinct, there are one to six
workers (`WorkerCount` shows the source clamps them so), the job's total is the length of the queue,
the cancel flag is never lowered, and an uncancelled probe reports its preflight once in a search and
gives a result exactly when the preflight passed. Termination is stated for fair schedules, in which
every thread that has something to do is eventually scheduled; in particular probes return. What a search
finds is stated for probes that give the same answer for a profile whenever they are not cancelled.

**Service probes.** A probe is an oracle from services to outcomes. The cancel flag is read at named
points and may show a different value at each. Reports are assumed well-formed: own id and contract, at
least one attempt, and stable only if reachable with 0 < successes <= attempts.

**Geographic lists.** Text is a sequence of Unicode scalar values with its UTF-8 length computed.
How IP addresses are written is a parameter (`IpText`), assumed faithful: a written address reads back
and is short. `IpForms` proves this of the texts addresses are displayed in: dotted decimal for version 4
and, for version 6, those of sections 4 and 5 of RFC 5952. CIDR suffixes, masks and blocked ranges are
spelled out.

**Store.** The disk is a map of directories and a manifest. Each operation has a trace: the disk after
each of its durable writes. A crash leaves the disk before the operation or one of the trace.
`GeoBaseStore` performs the same writes step by step and its methods are proved to follow the traces.
Failing writes, renames, manifest saves and collections are inputs. Runs assume one thing only: that
`commit_applied_snapshot` is given records whose directories still exist and hold the records'
generations. Bases read earlier in a run meet it as long as no collection ran since
(`EarlierBasesMayBeCommitted`); after a collection they meet it if and only if the manifest still pointed
at them (`CommitAfterCollectIff`). A record carries its generation where the source keeps counts and
fingerprints of it.

**Login limiter.** `LoginLimiter` is proved against `Reserve`, `Forget` and `Compact`; whole histories
are folds over those, for any addresses and, in the window theorems, any clock readings that stay inside
the window. Addresses are numbers. The 64-bit saturation of the clock is modelled.

**Rollback.** Operations and concurrent writers are key-wise edits of JSON trees at any depth. `Diff`
turns one tree into another and writes only where they differ (`DiffApplies`), so that the law for edits
is also one for any three objects (`RollbackOfDocumentsIff`).

**Pool.** The next attempt's time is a 64-bit sum that wraps, as in a release build.

## Where a promise needs a condition

- Rolling back equals the concurrent edit applied to the previous state if and only if the operation
  dropped no key and added no key with the value `null` wherever somebody else changed the same object
  (`RollbackCommutesIff` for edits, `RollbackOfDocumentsIff` for objects; `DroppedKeyIsNotRestored` and
  `NullAdditionIsNotWithdrawn` are the witnesses).
- The login budget of an address holds in exactly the windows that end before the last second of a 64-bit
  clock (`AddressBudgetIff`; `ClockEndAdmitsAll` is the witness).
- Reloading the lists of a generation and validating them against its source is refused if and only if
  some domain is listed both alone and as a suffix (`ReloadRebuildsIff`; by `ReloadFails` every such
  domain gives a source text, and `ReloadCanFail` names one).
- A static list passes the validator if and only if its lines fit 8 MiB, which up to 190650 networks
  guarantee (`StaticListPassesIff`). The bound is sharp: a source of exactly 8 MiB that lists 190651
  networks is accepted and its static list is refused (`StaticListCanFail`, with the address forms of
  `IpForms`), since the list ends its last line and the source need not (`WrittenNetworksPassIff`).
- The next attempt of a pool is due after its delay if and only if that moment fits the 64-bit clock
  (`NextAttemptIff`).
- A parsed source written out as rules reads back as itself if and only if the rules fit 8 MiB
  (`RulesReadBack`).
- A normalised port list is a fixpoint if and only if it fits 4096 bytes; prefixes can push it over
  (`SecondPass`; `PrefixedListNeedNotBeAFixpoint` is the witness).

## Model

| member | source | states |
|---|---|---|
| BenchScheduler.WorkerCount | src/benchmark.rs:683-685 | the greatest number from one to six that is not above the request or the number of profiles, each counted as at least one |
| BenchScheduler.SharedJob.Enter | src/benchmark.rs:495-534 | the admission critical section: leave, wait, or reserve the head of the queue, and nothing else changes |
| BenchScheduler.SharedJob.ReleaseActive | src/benchmark.rs:573-577 | drop after cancellation removes only the reservation |
| BenchScheduler.SharedJob.Complete | src/benchmark.rs:584-619 | completion releases the reservation and updates current profile, counters and results as one step |
| BenchScheduler.SharedJob.ReportPreflight | src/benchmark.rs:536-544 | preflight counters of a search |
| BenchScheduler.SharedJob.ReportPreflightFailure | src/benchmark.rs:545-560 | a search's failure is appended to the log with its texts cut, and the oldest entry of a full log goes |
| BenchScheduler.BoundedPreflightError | src/benchmark.rs:1411-1417 | stepping back to the end of a character gives the longest beginning of at most 2048 bytes |
| Text.ClippedIsLongest | src/benchmark.rs:1411-1417 | that text is a beginning within the limit, and one more character would exceed it |
| BenchTheorems.LogHoldsLastTwenty | src/benchmark.rs:545-560 | over any run the log holds the last twenty failures reported, in order and with their cut texts |
| BenchSteps.EntryMeans | src/benchmark.rs:553-557 | an entry holds the first 32 characters of the phase and the longest 2048 bytes of the error |
| BenchSteps.CancelledStartsNothing | src/benchmark.rs:498-500 | once the flag is up, no profile leaves the queue and no probe starts, over any run |
| BenchSteps.AdmissionIff | src/benchmark.rs:495-534 | a worker may start the next profile iff nobody cancelled and the probes in flight may not suffice, waits iff they may, and else leaves, in terms of the good servers found and held |
| BenchSteps.FinishReasonIff | src/benchmark.rs:649-660 | a search is reported cancelled iff the flag is up at the end, and else by whether the target was reached |
| BenchSteps.SetAsideIff | src/benchmark.rs:627-642 | results are set aside for the callback iff an ordinary run is complete and nobody cancelled it |
| BenchSteps.CallBackIff | src/benchmark.rs:627-642 | results set aside are handed over once and replaced by what comes back |
| BenchSteps.StatusIsTruthful | src/benchmark.rs:512-534 | in every reachable state the current profile is the latest in flight, the running flag ends with the run, and memory pressure is shown only when it cancelled |
| BenchSteps.PreflightsAreCounted | src/benchmark.rs:536-544 | the two preflight counters are the numbers of preflights reported and failed in the run |
| BenchSteps.ResultsInOrder | src/benchmark.rs:581-619 | the results are those recorded, in that order, until a callback replaces them |
| BenchScheduler.SharedJob.Finalise | src/benchmark.rs:643-662 | the closing critical section and its finish reason |
| BenchRuns.InitialInv | src/benchmark.rs:418-450 | a fresh run satisfies the invariant |
| BenchRuns.InvNext | src/benchmark.rs:451-663 | every step of every thread preserves conservation, counters, honesty of results and coordination |
| BenchTheorems.NeverOvershoots | src/benchmark.rs:500-527 | in every reachable state servers found plus reservations never exceed the target, and the six-entry cap never loses a reservation |
| BenchTheorems.EveryProfileInOnePlace | src/benchmark.rs:512-534 | each profile is in exactly one of queued, in flight, completed or dropped and is probed at most once, in order; `found_good` is the number of distinct good raws and `completed` is results plus rejected preflights |
| BenchTheorems.JoinedResultsAgree | src/benchmark.rs:581-619 | once workers have joined, the multiset handed to `on_result` is the multiset recorded |
| BenchTheorems.ReportIsTruthful | src/benchmark.rs:627-660 | each finish reason means what it says; the completion callback runs at most once, after everybody left and only on a complete ordinary run with what was emitted, and exactly once when such a run ends uncancelled |
| BenchAnswers.SearchFindsAll | src/benchmark.rs:495-662 | if each profile has one answer, a search that ends uncancelled has found the smaller of its target and the number of distinct good servers among all answers, however the threads were scheduled, and its finish reason says which |
| BenchTheorems.WaiterHasHolder | src/benchmark.rs:504-510 | a worker waits only while another one holds a reservation |
| BenchTheorems.StepDecreases | src/benchmark.rs:489-621 | every step that is not a poll uses up some of a measure over queue, reservations and threads; a poll leaves it alone |
| BenchTheorems.RunIsBounded | src/benchmark.rs:489-621 | the steps of any run that are not polls are at most the initial measure |
| BenchTheorems.FairRunsEnd | src/benchmark.rs:451-663 | under fair scheduling every run reaches its final report with all workers gone |
| BenchScheduler.AdaptiveProbe | src/benchmark.rs:561-567 | the probe a worker calls keeps the contract the run assumes, and its result is good for a known prefix iff every service of the prefix passes |
| ServiceProbes.RunCompleteServiceProbes | src/benchmark.rs:1081-1130 | the loop lists each service as probed or skipped exactly as prefix and fail-fast dictate, and calls just the probed ones; it ends in an error exactly when the flag is up where it is read or a probe's error ends it, and names the first |
| ServiceProbes.PolicyCancelledIff | src/benchmark.rs:1092-1130 | under a policy the loop ends in the cancellation error iff the flag is up before a service, after a probed one's error or at the end, or a probe was cancelled |
| ServiceProbes.RunServiceProbesAfterPing | src/benchmark.rs:1025-1079 | the ping gate skips all services, cancelled if the flag is up, or runs the loop with its exact outcome; the services called are a prefix of YouTube, Telegram, AI |
| ServiceProbes.ProbedIsPrefix | src/benchmark.rs:1092-1127 | whatever the answers, the services called are an initial segment |
| ServiceProbes.NoFailuresIff | src/benchmark.rs:1672-1706 | the list of failures is empty exactly when no test counts as one |
| ServiceProbes.PolicyVerdictIff | src/benchmark.rs:1640-1711 | under a policy the verdict holds iff some ping is reachable and every service of the prefix is stable and conclusive |
| ServiceProbes.ShortCircuitingPreservesVerdict | src/benchmark.rs:1025-1130 | the verdict is the same for all four settings of `fail_fast` and `reject_no_ping` |
| ServiceProbes.RunAdaptiveResourceProbes | src/benchmark.rs:1263-1319 | the adaptive loop gives exactly the outcome the next row characterises; the preflight is reported exactly once unless the flag is up around it, and only services of the prefix are called, in order |
| ServiceProbes.AdaptiveOutcomeIff | src/benchmark.rs:1263-1319 | it ends in cancellation iff the flag is up where it is read or a probe that was due was cancelled, in nothing iff the preflight did not pass, and else lists the tests the prefix dictates |
| ServiceProbes.BenchmarkAdaptiveProfile | src/benchmark.rs:1175-1261 | a result exactly when the preflight passed and neither the flag nor a probe cancelled the check, with the preflight callback fired once unless the flag is up around it |
| ServiceProbes.SuccessIff | src/benchmark.rs:1232-1257 | the stored flag holds iff every required service passes |
| ServiceProbes.GoodIff | src/benchmark.rs:1134-1172 | the search verdict holds iff the prefix is known and every required service passes |
| ServiceProbes.AllMeansAi | src/benchmark.rs:1138-1143 | the prefixes `all` and `ai` give the same result and verdict |
| ServiceProbes.VerdictsAgree | src/benchmark.rs:1134-1261 | the two separately written verdicts agree for every known prefix and with or without fail-fast |
| ProbeMeanings.RequestMeans | src/benchmark.rs:1081-1091 | a policy says how far to go and whether to stop at a failure; without one all services are asked for and any error ends the loop |
| ProbeMeanings.CalledAre | src/benchmark.rs:1092-1127 | the services called are those up to the last one asked for and, if failures stop the check, up to the first unstable answer |
| ProbeMeanings.FirstErrorEnds | src/benchmark.rs:1092-1130 | where any error ends the loop, it ends with that of the first called service that has one |
| ProbeMeanings.FailedIs | src/benchmark.rs:1582-1597 | how a service whose probe failed is listed |
| ProbeMeanings.RejectedAre | src/benchmark.rs:1025-1079 | how services refused by the ping gate are listed |
| ProbeMeanings.SkippedIs | src/benchmark.rs:1599-1612 | how a service that was not called is listed |
| ProbeMeanings.RejectsIff | src/benchmark.rs:1025-1036 | the gate refuses iff the policy says so and no ping that was tried reached anything |
| ProbeMeanings.FailuresAre | src/benchmark.rs:1640-1711 | a failure is listed iff it is that of a failed test, or no ping reached its server |
| ProbeMeanings.OrdinaryVerdictIff | src/benchmark.rs:1640-1711 | without a policy a check passes iff a ping is reachable and every other test stable and conclusive |
| ProbeMeanings.PolicyVerdictMeans | src/benchmark.rs:1640-1711 | under a policy tests pass iff a ping is reachable, no service asked for failed, and each has a current complete test |
| ProbeMeanings.PolicyFailuresAre | src/benchmark.rs:1672-1706 | the services listed as failed are those called that did not pass |
| ProbeMeanings.GoodMeans | src/benchmark.rs:1134-1172 | a result counts iff it stems from a search and holds current evidence of a ping and of each service of the prefix |
| DomainNames.DomainChars | src/geobase.rs:1151-1171 | an accepted domain has only label characters and dots, with a label character at both ends |
| DomainNames.ParsesToCanonical | src/geobase.rs:1136-1173 | every parsed domain is in normal form and a normal form parses to itself |
| NetworkText.ShowReadsBack | src/geobase.rs:1182-1195 | a written network reads back as itself |
| NetworkText.NormalFormIsFixpoint | src/geobase.rs:1175-1216 | an accepted network is tidy, at most 43 bytes and accepted again unchanged |
| Cidr.BoundsAreAligned | src/geobase.rs:1218-1245 | the masks give the aligned range of 2^(bits-prefix) addresses that holds the address |
| Cidr.OverlapsIff | src/geobase.rs:1322-1331 | the mask test holds iff the range and the block share an address, for 32 and 128 bits in 128-bit words |
| Cidr.OverlapsAnyIff | src/geobase.rs:1247-1320 | the blocked-range scan holds iff some address of the network lies in some blocked block |
| Cidr.PublicIff | src/geobase.rs:1196-1216 | a network is accepted iff its prefix is allowed, it has no host bits and no address of it is blocked; each error names the first that failed |
| PublicRanges.PublicV4Iff | src/geobase.rs:1247-1270 | a version 4 address is accepted iff its octets are in none of the reserved ranges |
| PublicRanges.PublicV6Iff | src/geobase.rs:1271-1302 | a version 6 address is accepted iff its groups are in none of the reserved ranges |
| PublicRanges.PrefixRange | src/geobase.rs:1196-1204 | prefix lengths are refused as too broad or invalid iff outside 8 to 32 or 16 to 128 |
| GeoReading.BlankIff | src/geobase.rs:360-363 | a line says nothing iff only white space precedes its comment |
| GeoReading.RuleMeans | src/geobase.rs:1119-1130 | the four keywords, in any case and with any spaces, read their value as a domain, a suffix or a network |
| GeoReading.RulesOfCanonical | src/geobase.rs:364-378 | a rule with a canonical value yields exactly that entry or network |
| GeoReading.PlainLineMeans | src/geobase.rs:379-387 | a line without a keyword is a network if it is an address or has a slash, and else a domain alone |
| GeoReading.PlainDomainReads | src/geobase.rs:382-386 | a domain on a line of its own is that domain and nothing below it |
| GeoReading.PlainDomainsRead | src/geobase.rs:334-406 | a source of such lines reads as exactly those domains, each alone |
| GeoReading.UnknownRuleIsRefused | src/geobase.rs:1128 | a line with a comma and no known keyword is refused |
| GeoReading.DomainIff | src/geobase.rs:1143-1171 | a domain is two or more good labels between dots, at most 253 bytes, the last one no number |
| GeoReading.DomainInAnySpelling | src/geobase.rs:1137 | a domain may be written in any case, between spaces and with dots at its end |
| GeoReading.LinesMean | src/geobase.rs:347 | lines end in a line feed, alone or behind one carriage return |
| GeoReading.PrefixMeans | src/geobase.rs:1182-1195 | a prefix length is a decimal number, with or without a plus sign |
| GeoReading.ReadInOrder | src/geobase.rs:188-194 | entries alone come before those with all below them, and each kind in the order of its texts |
| GeoReading.BeforeMeans | src/geobase.rs:188-194 | that order is lexicographic |
| GeoReading.ErrorOfSource | src/geobase.rs:347-399 | the first line that cannot be added decides the error |
| GeoSource.ParseLine | src/geobase.rs:347-399 | one turn of the line loop equals one step of the fold, limits and errors included |
| GeoSource.ParseSource | src/geobase.rs:334-406 | the line loop equals the fold that the laws below are about |
| GeoSource.LineIsNormal | src/geobase.rs:355-387 | whatever a readable line says is in normal form |
| GeoSource.AcceptedIff | src/geobase.rs:334-406 | a source is accepted iff it is within byte and line limits, all lines are short and readable, and what it says as a whole is within the entry limits |
| GeoSource.SaidContents | src/geobase.rs:344-387 | the sets hold exactly what some line says, in any order and repetition |
| GeoSource.AcceptedIsWellFormed | src/geobase.rs:401-405 | an accepted source yields each entry and network once, normal, within limits, with matching domain list |
| GeoPrint.CommentsAreIgnored | src/geobase.rs:1132-1134 | everything from the first number sign on is ignored |
| GeoPrint.ArgumentsAreIgnored | src/geobase.rs:1119-1130 | arguments of a rule after the first are ignored |
| GeoPrint.RulesReadBack | src/geobase.rs:334-406 | writing an accepted source out as rules and reading them gives the same parsed source, unless they exceed the byte limit |
| GeoLists.ValidateGeneration | src/geobase.rs:846-912 | the three loops equal the functions that the laws below are about |
| GeoLists.SortByClass | src/geobase.rs:871-884 | the loop over entries puts each line into the list of its class, in order |
| GeoLists.CollectRoutes | src/geobase.rs:885-903 | the loop over static entries equals the fold of routes |
| GeoListLaws.ClassesAcceptedIff | src/geobase.rs:851-869 | classifications are accepted iff each names a source domain and no two name the same one |
| GeoListLaws.ClassesHold | src/geobase.rs:860-863 | the accepted table says exactly what the items say |
| GeoListLaws.RoutesAcceptedIff | src/geobase.rs:885-903 | static routes are accepted iff each has a real target and a source network and none conflict |
| GeoListLaws.EveryEntryInOneList | src/geobase.rs:870-884 | every entry has its line in exactly one list, that of its assigned class; lines are distinct and there are no others |
| GeoListLaws.AnalysisIsAccepted | src/geobase.rs:410-422 | classifying every source domain is always accepted and puts each entry where the analyzer put its domain |
| GeoMeanings.StaticListsHold | src/geobase.rs:885-910 | each static list holds, once and in order, exactly the networks some route sends to its target |
| GeoArtifacts.ValidateArtifact | src/geobase.rs:272-315 | the validator's loop equals the count the laws below are about |
| GeoArtifacts.ArtifactAcceptedIff | src/geobase.rs:272-315 | a file is accepted iff it and its lines are short, every line is blank or a clean entry, and entries are within the limit; the result is their number |
| GeoArtifacts.FileReadsBack | src/geobase.rs:924-956 | reading a written list gives the list |
| GeoArtifacts.WrittenListAccepted | src/geobase.rs:958-964 | a written list of accepted lines passes iff it fits the byte limit and is counted in full |
| GeoArtifacts.DomainListsPass | src/geobase.rs:870-884 | every domain list of an accepted generation passes the validator with count equal to its length |
| GeoMeanings.CleanArtifactIff | src/geobase.rs:272-315 | a file of lines without spaces passes iff all is within the limits and each line is a domain, perhaps marked, or a network |
| GeoMeanings.ErrorOfArtifact | src/geobase.rs:272-315 | the first line that cannot be counted decides the error |
| GeoReload.LoadedRoutesRebuild | src/geobase.rs:673-682 | loading the two static lists rebuilds the route table |
| GeoReload.ReloadRebuildsIff | src/geobase.rs:656-687 | loading and validating again rebuilds the same five lists iff no domain is listed both ways, and is refused otherwise |
| GeoWitnesses.ReloadFails | src/geobase.rs:859-868 | for every domain, a source text listing it both ways is accepted and its own lists, loaded again, are refused |
| GeoWitnesses.ReloadCanFail | src/geobase.rs:859-868 | some text reads as such a source, which is accepted and whose lists are refused |
| GeoReload.StaticListPassesIff | src/geobase.rs:904-910 | a static list passes the validator iff its lines fit the byte limit, and up to 190650 networks always do |
| GeoWitnesses.WrittenNetworksPassIff | src/geobase.rs:272-315 | a source of distinct networks, one a line in written form, gives a static list of all of them that passes iff the source is below the greatest size |
| GeoWitnesses.StaticListCanFail | src/geobase.rs:904-910 | a source of exactly 8 MiB with one network more than 190650 is accepted and its static list is refused |
| IpForms.ShortFormsAreFaithful | src/geobase.rs:1182-1195 | the canonical texts of addresses differ for different addresses, so each reads back, in the characters and length the model assumes |
| GeoStoreLaws.SnapshotAcceptedIff | src/geobase.rs:1091-1109 | the record check passes iff ids are valid, distinct and at most 32 |
| GeoStoreLaws.PlacedContents | src/geobase.rs:793-803 | a saved record replaces the one with its id or joins the list, every other record stays, and a list ordered by id stays ordered |
| GeoStoreLaws.RemovalIsSafeIff | src/geobase.rs:618-649 | removing a directory is safe iff neither list points at it |
| GeoStoreLaws.PublishKeepsInv | src/geobase.rs:727-811 | every durable state of a publication, failed or not, satisfies the invariant |
| GeoStoreRuns.EarlierBasesMayBeCommitted | src/geobase.rs:596-616 | bases read at any moment of a run may be committed later, whatever happened or crashed in between, if no collection ran since |
| GeoStoreRuns.CommitAfterCollectIff | src/geobase.rs:596-649 | committing earlier records after a collection is crash-safe iff the manifest pointed at the directory of each when it ran |
| GeoStoreLaws.CollectLeavesReferenced | src/geobase.rs:618-649 | a collection leaves exactly the referenced directories, unchanged, and counts what went |
| GeoStoreRuns.EveryRunIsCrashSafe | src/geobase.rs:477-649 | after any run with crashes anywhere, every desired and applied record points at a complete directory with its generation, every published directory is complete with lists accepted for its source, bases are ordered by id, sources stay within 64 MiB, and applied never exceeds current generation |
| GeoStoreRuns.PublishedIsImmutable | src/geobase.rs:727-811 | no operation ever changes a published directory and only a collection removes one |
| GeoStoreRuns.ManifestChangesLast | src/geobase.rs:812-816 | the manifest changes at most once, in the last durable state of a successful operation |
| GeoStoreRuns.ServedListsPass | src/geobase.rs:272-315 | in every reachable state the stored domain lists of desired and applied records pass the validator |
| GeoStoreRuns.StoredListsRevalidateIff | src/geobase.rs:656-687 | stored lists validated against their stored source come back unchanged iff no domain is listed both ways |
| GeoVersions.MutationIsVersioned | src/geobase.rs:525-574 | each successful create, update, delete or enable raises the generation by one, touches nothing applied and leaves activation pending |
| GeoVersions.ApplyClearsIff | src/geobase.rs:577-616 | after a successful apply activation is pending iff it did not report the current generation and bases |
| GeoVersions.ChangeStaysPending | src/geobase.rs:131-135 | after a change activation stays pending over any run with crashes until some apply reports the state it finds |
| GeoVersions.UpdateRaisesRevision | src/geobase.rs:500-523 | a successful update found the expected revision and leaves the next one |
| GeoVersions.CreateMakesRecord | src/geobase.rs:477-498 | a created base was absent, starts at revision one with what was asked for, and its directory is stored |
| GeoVersions.UpdateReplacesRecord | src/geobase.rs:757-803 | an updated base keeps its creation time, moves to the next revision and takes what was asked for |
| GeoVersions.DeleteRemovesRecord | src/geobase.rs:525-539 | a deleted base is gone and its record is returned |
| GeoVersions.SetEnabledChangesFlag | src/geobase.rs:555-574 | enabling changes the flag and the time and no revision |
| GeoVersions.OnlyTargetChanges | src/geobase.rs:477-616 | no operation, crashed or not, touches the record of a base it does not target |
| GeoVersions.OneUpdatePerRevision | src/geobase.rs:500-523 | two updates expecting the same revision both succeed only if some event in between deleted the base |
| GeoVersions.LeavesByDeletion | src/geobase.rs:525-539 | a base leaves the manifest only by a successful deletion of it |
| GeoOutcomes.CreateSucceedsIff | src/geobase.rs:477-498 | when a create succeeds, in terms of the disk and the request, and which error it gives |
| GeoOutcomes.UpdateSucceedsIff | src/geobase.rs:500-523 | when an update succeeds and which error it gives |
| GeoOutcomes.DeleteSucceedsIff | src/geobase.rs:525-539 | when a delete succeeds and which error it gives |
| GeoOutcomes.SetEnabledSucceedsIff | src/geobase.rs:541-575 | when enabling succeeds and which error it gives, an expected revision included |
| GeoOutcomes.MarkAppliedSucceedsIff | src/geobase.rs:577-591 | a generation is acknowledged iff it is the current one |
| GeoOutcomes.CommitSucceedsIff | src/geobase.rs:596-616 | a snapshot is committed iff its generation is not ahead and its records are valid |
| GeoOutcomes.CurrentCanBeApplied | src/geobase.rs:596-616 | in every reachable store the current state can be acknowledged, and then nothing is pending |
| GeoOutcomes.FailedUploadLeaves | src/geobase.rs:727-816 | a create or update that fails leaves the store as it was but perhaps for an unreferenced directory |
| GeoOutcomes.FailedSaveLeaves | src/geobase.rs:525-616 | every other failing operation but a collection writes nothing |
| GeoOutcomes.SuccessIsStamped | src/geobase.rs:525-616 | a success stamps the manifest with its time |
| GeoOutcomes.GoodRequestIff | src/geobase.rs:983-998 | which requests are good |
| GeoOutcomes.SourcesStayWithinQuota | src/geobase.rs:818-828 | the sources of all bases together stay within 64 MiB in every reachable store |
| GeoStore.GeoBaseStore.RetainedSourceBytes | src/geobase.rs:1349-1378 | the loop over directories adds up the source bytes of all of them |
| GeoStore.GeoBaseStore.WriteFiles | src/geobase.rs:737-742 | writes the files one by one into the temporary directory and removes it after a failure |
| GeoStore.GeoBaseStore.PublishRecord | src/geobase.rs:727-811 | writes files, renames and saves the manifest in the order of the trace, cleaning up after a failure |
| GeoStore.GeoBaseStore.ReplaceGeneration | src/geobase.rs:715-811 | parse, validate, quota and overflow checks before any write |
| GeoStore.GeoBaseStore.CreateBase | src/geobase.rs:477-498 | the create operation with its error order |
| GeoStore.GeoBaseStore.UpdateBase | src/geobase.rs:500-523 | the update operation with its revision check |
| GeoStore.GeoBaseStore.DeleteBase | src/geobase.rs:525-539 | the delete operation |
| GeoStore.GeoBaseStore.SetBaseEnabled | src/geobase.rs:541-575 | the enable operation with its optional revision check |
| GeoStore.GeoBaseStore.MarkManifestApplied | src/geobase.rs:577-591 | acknowledgement of the expected generation |
| GeoStore.GeoBaseStore.CommitSnapshot | src/geobase.rs:596-616 | acknowledgement of an exact snapshot, refusing future generations and bad records |
| GeoStore.GeoBaseStore.GarbageCollect | src/geobase.rs:618-649 | the collection loop follows its trace and returns its length, or stops in it with an error when the file system fails |
| GeoStore.GeoBaseStore.LoadSource | src/geobase.rs:651-654 | in a crash-safe store returns the source the record was made from, or the right error |
| GeoStore.GeoBaseStore.LoadLists | src/geobase.rs:656-687 | in every reachable store returns the classifications and routes the stored lists stand for |
| LoginThrottle.LoginLimiter.ReserveAttempt | src/hincyray_security.rs:98-124 | admits or refuses and charges the bucket exactly as the step function says |
| LoginThrottle.LoginLimiter.RecordSuccess | src/hincyray_security.rs:126-129 | forgets the address's own bucket only |
| LoginThrottle.TableStaysBounded | src/hincyray_security.rs:100-107 | the table never exceeds 256 entries over any history |
| LoginThrottle.AddressBudget | src/hincyray_security.rs:95-124 | in any closed 300-second window one address is admitted at most five times before its own success, whichever bucket it is charged to |
| LoginThrottle.GlobalBudget | src/hincyray_security.rs:95-124 | such a window admits at most 5 * 257 attempts over any addresses, and five more for each success in it |
| LoginIsolation.FirstAttempt | src/hincyray_security.rs:100-109 | a new address gets its own bucket iff fewer than 256 addresses are blocked or have recent failures and the shared bucket is idle |
| LoginIsolation.SharedBucketStaysEmpty | src/hincyray_security.rs:100-109 | as long as at most 256 addresses occur the shared bucket is never touched |
| LoginIsolation.OutcomeIsOwn | src/hincyray_security.rs:98-124 | then an address meets exactly what it would meet alone, if the clock does not go back |
| LoginIsolation.SparseIsNeverRefused | src/hincyray_security.rs:64-119 | then an address that never makes five attempts within one window is never refused or blocked |
| LoginIsolation.SuccessStartsAfresh | src/hincyray_security.rs:126-129 | after its success an address that is alone starts from nothing |
| LoginIsolation.BlockEnds | src/hincyray_security.rs:64-73 | a block leaves nothing behind once it is over |
| LoginThrottle.FifthAttemptBlocks | src/hincyray_security.rs:113-119 | the budget is given in full: attempts are admitted up to the fifth in the window, and exactly the fifth blocks, whatever others do |
| LoginThrottle.AddressBudgetIff | src/hincyray_security.rs:64-73 | the budget holds in exactly the windows that end before the clock does |
| LoginThrottle.ClockEndAdmitsAll | src/hincyray_security.rs:113-119 | at the last second of the clock every attempt is admitted |
| LoginThrottle.BlockHolds | src/hincyray_security.rs:110-119 | after a trigger at t every attempt before t + 900 is refused with exactly the seconds left, whatever other addresses do, until its own success |
| StateTransaction.Rollback | src/hincyray_state_transaction.rs:4-32 | the in-place merge over the keys of both states equals the three-way rollback, in any key order |
| StateTransaction.RollbackOfNoChange | src/hincyray_state_transaction.rs:5-7 | undoing an operation that changed nothing keeps the current state |
| StateTransaction.AttemptedSurvives | src/hincyray_state_transaction.rs:4-32 | the result equals the attempted state iff previous, attempted and current are all equal |
| StateTransaction.RollbackIsIdempotent | src/hincyray_state_transaction.rs:4-32 | rolling back a rolled-back state changes nothing |
| StateTransaction.UntouchedPathsKeepCurrent | src/hincyray_state_transaction.rs:15-20 | any path where previous and attempted agree keeps its current value |
| StateTransaction.ConflictsKeepCurrent | src/hincyray_state_transaction.rs:29-31 | a value other than an object that a concurrent writer put is kept at any depth |
| StateTransaction.UncontestedPathsAreRestored | src/hincyray_state_transaction.rs:5-7 | where nobody touched what the operation put, the previous value comes back at any depth |
| StateTransaction.AdditionsAreWithdrawn | src/hincyray_state_transaction.rs:21-22 | a value the operation added and nobody touched goes again at any depth |
| StateTransaction.RollbackCommutesIff | src/hincyray_state_transaction.rs:4-32 | rollback after a disjoint concurrent edit equals that edit applied to the previous state iff the operation is restorable |
| StateTransaction.DiffApplies | src/hincyray_state_transaction.rs:9-25 | the difference of two trees, applied to the first, gives the second, so edits cover every change |
| StateTransaction.RollbackOfDocumentsIff | src/hincyray_state_transaction.rs:4-32 | for any three objects whose two changes are disjoint, rollback equals the concurrent change applied to the previous state iff the operation is reversible |
| StateTransaction.RollbackCommutes | src/hincyray_state_transaction.rs:4-32 | at any depth it does so when the operation only changed existing keys or added non-null ones |
| StateTransaction.DroppedKeyIsNotRestored | src/hincyray_state_transaction.rs:21-25 | a key the operation dropped is not restored once anything beside it changed |
| StateTransaction.NullAdditionIsNotWithdrawn | src/hincyray_state_transaction.rs:15-20 | an added key with the value null is not withdrawn |
| PoolScheduling.PoolRuntime.Record | src/hincyray_pool.rs:38-67 | records an event: cursor, last probe, next attempt with its 64-bit wrap, and the trimmed log |
| PoolScheduling.NextAttemptIff | src/hincyray_pool.rs:58 | the next attempt is 60 seconds after a selection and 10 after a failure iff that fits the clock, and else lies before now |
| PoolScheduling.NearestFrom | src/hincyray_pool.rs:28-35 | the search from the cursor finds the nearest eligible member |
| PoolScheduling.NextIsNoneIff | src/hincyray_pool.rs:21-36 | nobody is chosen iff nobody is eligible, and the chosen one is an eligible member |
| PoolScheduling.NextIsFirstReady | src/hincyray_pool.rs:21-36 | the chosen member is the first from the cursor that is available and off its cooldown |
| PoolScheduling.CursorStandsBehind | src/hincyray_pool.rs:46-52 | the cursor stands behind the last event's member and stays for events of nobody |
| PoolScheduling.StatusShowsLast | src/hincyray_pool.rs:53-58 | the status shows the last event and when the next attempt is due |
| PoolScheduling.PoolIsFair | src/hincyray_pool.rs:21-52 | a member that stays eligible is chosen within as many rounds as there are members |
| PoolScheduling.LogIsCollapsedHistory | src/hincyray_pool.rs:59-66 | the log is the last twenty events that name another server or outcome than the one before |
| PortItems.NormalizePortItems | src/hincyray_routing.rs:13-68 | the nested loops equal the fold the laws below are about, error for error |
| PortItems.SucceedsIff | src/hincyray_routing.rs:13-68 | success iff within the byte and entry limits, every non-blank piece holds a range and every range parses |
| PortItems.MeaningIsPreserved | src/hincyray_routing.rs:13-68 | the output denotes exactly the ports of each kind that the input denotes |
| PortItems.ResultIsCanonical | src/hincyray_routing.rs:49-62 | the output is canonical throughout, without repetitions and at most 256 long |
| PortItems.SecondPass | src/hincyray_routing.rs:13-16 | the output normalises to itself iff it fits 4096 bytes and is refused otherwise |
| PortItems.PlainListsAreFixpoints | src/hincyray_routing.rs:13-68 | a list without prefixes is always a fixpoint after one pass |
| PortItems.PrefixedListNeedNotBeAFixpoint | src/hincyray_routing.rs:59-62 | a prefixed list within the limit whose normal form leaves it |
| PortMeanings.PortIff | src/hincyray_routing.rs:32-44 | a port is a decimal number from 1 to 65535, and which error anything else gets |
| PortMeanings.RangeIff | src/hincyray_routing.rs:45-57 | a range is a port or two in order, and its error is that of the first wrong part |
| PortMeanings.PrintedHyphen | src/hincyray_routing.rs:50-54 | a canonical text has a hyphen iff its range holds more than one port |
| PortMeanings.SeparatorsMakeItems | src/hincyray_routing.rs:17 | a comma, a semicolon or a line feed inside an item makes two items |
| PortMeanings.OthersKeepItem | src/hincyray_routing.rs:17 | nothing else separates items |
| PortMeanings.KindIsAnnounced | src/hincyray_routing.rs:18-25 | the two prefixes give the kind of all ranges of an item |
| PortMeanings.OthersArePlain | src/hincyray_routing.rs:23-25 | any other item holds plain ports |
| PortMeanings.SlashMakesRanges | src/hincyray_routing.rs:27 | a slash separates ranges, and blank ones do not count |
| PortMeanings.ErrorOfList | src/hincyray_routing.rs:26-65 | the first piece that cannot be added decides the error |

## Left out

- Process spawning, curl, sockets, memory readings, timing, latency metrics and the wording of error texts of `src/benchmark.rs`; probes are oracles, memory pressure is a cancel step, direct ping diagnostics are given tests.
- RunCompleteServiceProbes: without a policy the error of a failed probe is returned as such, not with its text.
- File contents within a write: a torn write or a half-removed directory counts as its state before that write; neither is ever referenced.
- Per-base folders, made on demand and removed when empty, file permissions, an fsync error after a successful persist, and serialisation of the manifest.
- The store's mutex: each operation runs alone, as the lock makes it; reading a manifest that fails its own validation is not modelled, since every reachable manifest passes it.
- `save_manifest` with arbitrary caller content, `validate_record_paths` and fingerprints: record paths are built from the record's id and a unique number, and records carry their generation.
- The record's `status`, which always mirrors `enabled`, and source kinds.
- ParseSource: takes decoded text; bytes that are not UTF-8 are refused by the source before the model begins.
- ShortFormsAreFaithful: reads the canonical text of each address and nothing else, where the source's parser also takes other spellings; everything else is proved for any faithful parser.
- ParseNetwork: how single addresses are written is a parameter; the plus sign a prefix length may carry is modelled.
- `diff_sources`: set differences of two parsed sources, an easy member.
- ValidatePublic: error messages and line numbers.
- The owning locks, sessions, password hashing and the password-work limiter of `src/hincyray_security.rs`.
- Rollback: numbers are compared by equality only, so their textual forms are not modelled.
- `normalize_domain_rule`, `normalize_routing_resource` and the rest of `src/hincyray_routing.rs`: expression-style rewriting without a law that spans calls.
- User interface, network clients, policy automation and configuration building.

# Work graph: a Dafny model of its capture, watch and handoff logic

The program collects what happens around a developer's work (mail, chat, GitHub, AI sessions) into one
local SQLite event log, and several processes share that database. This project models the parts where
that sharing, or the arithmetic and text handling around it, is delicate, and proves what those parts are
for. `dafny verify dfyconfig.toml` checks all of it.

How the program's world appears in the model:

- A table is a finite map or a sequence, a transaction one atomic step, a process something that may take
  its next step at any moment. Clocks are parameters of the steps, so every interleaving and every clock
  reading, also one that goes back, is covered unless a lemma's `requires` says otherwise.
- Instants are integer nanoseconds. Where the program compares stored RFC 3339 text, so does the model
  (`Rfc3339`), and what that does to a guard is a theorem rather than an assumption.
- Fresh identifiers and claim tokens are never reused. Composite keys that the program joins with colons
  are records.
- The provider (GitHub's API, a mailbox) is an arbitrary function that answers, fails or times out.
- Operations the program performs step by step are methods of classes or methods with loops, each proved
  equal to a function on values; the theorems are about those functions and about runs of them. What an
  operation leaves behind is besides spelled out case by case, without the functions that compute it.

| file | what it is about |
|---|---|
| `Outbox`, `OutboxRuns`, `OutboxStore` | the bridged capture outbox: leases, claim tokens, window splitting, cursors |
| `PrWatch`, `PrWatchRuns`, `PrWatchStore` | the pull request watch, author role: one poll, the fence, the commit transaction |
| `Readiness`, `PrReadinessLog`, `PrReadinessRuns` | the readiness verdict, and the cache against the event log |
| `PrRepeats`, `PrListings`, `PrOutcomes` | a pull request listed several times by one search, and what a poll leaves behind for each |
| `ReviewerWatch`, `ReviewerOutcomes`, `ReviewerRuns` | the pull request watch, reviewer role: whole polls, what each leaves behind, and their interleavings under the fence |
| `DetailPaging` | timelines fetched in adaptive batches and resumed by cursor |
| `SessionProjection`, `Handoff` | AI session state from unordered rows, and the bounded handoff context |
| `SearchMerge` | GitHub search by bisection, and the merge of the results |
| `SignalRelay` | signals relayed to a child that may not exist yet |
| `MailRecipe`, `Associations`, `ShellQuote`, `DirtyPaths` | mail pages, association scoring, POSIX quoting, git status output |
| `Rfc3339`, `Text`, `Options` | timestamps as text, byte order on text, the option type |

## What turned out not to hold as hoped

Each of these has an input on which it fails, as a lemma, and the exact condition under which the code does
what it is for.

- Replaying the readiness evidence orders events by timestamp text. A poll on a whole second and another
  later in the same second sort in the wrong order, so the cache says "not ready" and the replay "ready"
  (`SameSecondDisagrees`). One poll keeps the agreement exactly when its event sorts after every earlier
  readiness event (`AgreementSurvivesExactly`); polls that start in different whole seconds always do.
- A timeline page answered with null after the poll's first page of that timeline leaves a detail that is
  neither complete nor resumable, and the next poll starts over (`NullPageStartsOver` runs the fetch against
  such a provider). A poll fails to continue where the last one stopped exactly when the provider answered one of
  the batches it was asked that way (`PollContinues`, `FetchExplained`).
- Text order on timestamps is reversed exactly when two instants share a second and the earlier one's
  fraction digits are a prefix of the later one's (`TextOrder`, with `SameSecondReversed` as the input). Guards
  err by less than a second.
- The search is read page by page and nothing drops a pull request that two pages list. When its listings got
  different answers, the log keeps what any of them reports and the cache what the last one gives; listed as ready
  and then as a draft, it is remembered as not ready and replayed as ready (`ListedTwiceDisagrees`). After a poll the
  two agree exactly when the listings do: the last one turns the remembered readiness if any does, and at first
  sight the first and the last are both ready or both not (`AgreementSurvivesListings`). Listings with the same
  answers change nothing (`RepeatsChangeNothing`).
- Interrupts that the relay will ignore still occupy its channel: four unread ones make it drop a TERM
  (`InterruptsCrowdOutTerminate`). Nothing is lost exactly when every TERM or HUP finds room in the channel
  when it arrives (`NothingLost`).

Two more functions fail only on inputs that the program keeps away from them:

- Loading a session shows the start and the end that were read last and the project that was read first. Over
  arbitrary rows the order matters exactly when such rows disagree (`OrderIndependentExactly`). The program's own
  ids give a session one start and one end, and all its events the project of its launch; whatever is written that
  way (`WritesAreStored`), every order gives the same projections (`OrderIndependent`).
- The association distance is symmetric exactly below 2^63 ns (`DistanceSymmetric`, and `SaturatedApart` beyond
  that); candidates come from a seven-day window (associations.go:135, today.go:356).

## Model

| member | source | states |
|---|---|---|
| OutboxRuns.NoGap | bridged_capture.go:457-483 | After every run, the windows a connector completed since its last reset cover all time from the first one's start to the cursor, and the cursor is the end of one of them |
| OutboxRuns.OneActiveRequest | bridged_capture.go:630-645 | After every run a connector has at most one pending or claimed request, and a row is claimed exactly when it has a token and exactly when it has a lease |
| OutboxRuns.EndedClaimIsPowerless | bridged_capture.go:217-225 | Once any step ends a claim, whatever runs afterwards, every renewal, failure, release, ingest or completion with its token leaves the database as it was |
| OutboxRuns.ClaimEnds | bridged_capture.go:329-355 | Recycling an expired lease, cancelling, failing, narrowing, releasing and completing each end the claim they act on |
| OutboxRuns.StaleForever | bridged_capture.go:395-407 | A token that does not hold its claim now does not hold it after any further run |
| OutboxRuns.CompletesAtMostOnce | bridged_capture.go:820-835 | Over every run no request completes twice, and a completed request stays completed |
| OutboxRuns.BatchStoredOnlyByCompletion | bridged_capture.go:1048-1119 | An ingest of a claimed request that changes anything found the claim held and its lease live, stores exactly its batch, and completes the request for the first time |
| OutboxRuns.ClaimedBatchCompletes | bridged_capture.go:620-645 | A claim is good for its whole lease, which is as long as asked for or five minutes: whatever others do between, short of cancelling or ending the claim, an ingest at least a second before its end stores the batch, completes the request and brings the cursor to the end of the window |
| OutboxRuns.CursorNeverLowered | bridged_capture.go:841-855 | No step but a reset lowers a connector's cursor |
| OutboxRuns.CompletionAdvances | bridged_capture.go:841-855 | In every reachable state a completion of a bounded connector moves its cursor on by at least 55 minutes, or its window reached the time its request was emitted |
| OutboxRuns.BacklogClears | bridged_capture.go:468-483 | Among any L / 55 min + 1 consecutive completions, L being how far the cursor was behind the last of them, one reaches its emission time |
| OutboxRuns.ChainAdvances | bridged_capture.go:468-483 | Consecutive windows that fall short of their emission time each advance the cursor by 55 minutes |
| OutboxRuns.ChainCovers | bridged_capture.go:457-483 | Windows that each start one overlap before the cursor left by the earlier ones have no gap, even when they end out of order |
| OutboxRuns.NarrowingBound | bridged_window_split.go:34-66 | In every run narrowing keeps a request's start, leaves at least an hour and less than before, and happens to one request at most five times |
| OutboxRuns.FewNarrowings | bridged_window_split.go:22-32 | Halving with a one-hour floor can be repeated at most k + 1 times from a window of 3h * 2^k / 2 |
| OutboxRuns.GuardsWithinASecond | bridged_capture.go:590-592 | The lease and availability guards, which compare text, are off by less than one second in either direction |
| OutboxRuns.RunSound | bridged_capture.go:536-659 | The invariant behind the results above holds after every run of emit, claim, read, renew, fail, release, recycle, cancel, ingest, complete and reset |
| OutboxStore.ConnectorRetryDelay | run.go:692-704 | The doubling loop with its early returns yields the initial delay times 2^(failures-1), capped at the maximum |
| OutboxStore.DefaultRetryDelay | bridged_capture.go:684-684 | Retry delays lie between 5 seconds and 5 minutes |
| OutboxStore.RetryDelays | run.go:692-704 | Five seconds, doubled with each failure after the first, and five minutes from the seventh on |
| OutboxStore.InsertOrIgnore | bridged_capture.go:1048-1119 | Every event of a batch is stored, and inserted and duplicate counts add up to the batch and to the growth of the log |
| OutboxStore.Store.RecycleExpired | bridged_capture.go:661-694 | The loop over expired claims returns exactly those to pending, without token, worker or lease, each with its own backoff; every other row stays |
| OutboxStore.Store.EmitCapture | bridged_capture.go:415-517 | Emission recycles, then returns the active request of the connector or inserts one: from five minutes before the cursor, or a day ago without one, to now, or a day on for connectors with bounded windows |
| OutboxStore.Store.EmitTask | llm_schedule.go:175-231 | A task request is emitted when there are units and none is active; without units nothing changes, expired claims included |
| OutboxStore.Store.ClaimBatch | bridged_capture.go:536-659 | The transaction recycles, lists and claims: it refuses exactly an unnamed worker or more than 100, and otherwise claims every listed request in order: claimed by this worker under its own new token, one attempt more, with a lease of the length asked for or five minutes; other rows are only recycled |
| OutboxStore.Store.ClaimOne | bridged_capture.go:625-645 | Claims exactly a due pending request, with token, worker, attempt and lease as above, and leaves every other row |
| OutboxStore.Store.ListClaimable | bridged_capture.go:590-618 | The listing is what the query asks for |
| OutboxStore.ListedMeans | bridged_capture.go:590-618 | That is: due pending requests of the kind, connector and task asked for, in the order of available_at, created_at and id as text, and all of them unless the limit is reached |
| OutboxStore.ListedUnique | bridged_capture.go:590-618 | The claim query has exactly one answer |
| OutboxStore.Store.RenewClaim | bridged_capture.go:194-235 | A renewal succeeds exactly for the held claim with a live lease and changes only its lease, to the length asked for or five minutes from now |
| OutboxStore.Store.CancelRequest | bridged_capture.go:237-297 | A request that exists and has not completed ends cancelled, without token or lease; the other answers are exact |
| OutboxStore.Store.FailClaim | bridged_capture.go:299-360 | A failure acts exactly on the held claim and returns it to pending: at once, with half its window and no less than an hour, when that was too large and can be narrowed, and else after the backoff |
| OutboxStore.Store.ReleaseClaims | bridged_capture.go:392-411 | Claims listed at any earlier time are released one by one, each only if the worker still holds it with that token: the effect of one Release step per claim |
| OutboxStore.ReleaseEachReleases | bridged_capture.go:392-411 | A row is put back, after the backoff of the claim listed for it, exactly when a listed claim is still the worker's, under that very token; every other row stays |
| OutboxStore.Store.ReleaseWorker | bridged_capture.go:362-413 | Listing and releasing with nothing in between is one Release step per claim of the worker, and returns all of those and nothing else to pending |
| OutboxStore.Store.ReadForIngest | bridged_capture.go:937-965 | The read before an ingest succeeds exactly for a held, unexpired capture claim |
| OutboxStore.Store.IngestBatch | bridged_capture.go:1048-1119 | Events, request and cursor change together or not at all |
| OutboxStore.Store.CompleteTask | llm_schedule.go:371-385 | Completes exactly a task request held with a live lease |
| OutboxStore.Store.CancelActive | bridged_capture.go:801-818 | A scope change cancels exactly the connector's active requests, the effect of one Cancel step each in whatever order, and none stays active |
| OutboxStore.Store.ResetConnectorCursor | connector.go:658-668 | After a reset the connector has no cursor, its next request starts a day back whenever it is emitted, and what any other connector emits, and every other cursor, row and event, is unchanged |
| PrWatchRuns.ObservationsInScope | github_pr_watch.go:389-414 | After any interleaving of polls, enables, disables and rescopes, every stored observation was produced under the current scope and the watch is on |
| PrWatchRuns.CommitIsSerial | github_pr_watch_poll.go:1585-1599 | If a poll commits, nothing wrote the fence, the cache or the log since it read the fence, and what it loaded on the way is what it commits against |
| PrWatchRuns.UnwrittenUnchanged | github_pr_watch_poll.go:1585-1599 | A stretch of a run with no committed write leaves fence, cache and log as they were |
| PrWatchRuns.RunFenced | github_pr_watch.go:389-440 | The fence invariant holds after every run |
| PrWatchStore.Store.ApplyFence | github_pr_watch.go:389-414 | From then on no fence read before, with the old sequence number or a smaller one, matches; the cache is empty when the watch is off or its scope changed and untouched otherwise |
| PrWatchStore.Store.Reconcile | github_pr_watch.go:416-440 | The fence ends up matching the configuration and is not written when it already does |
| PrWatchStore.Store.CommitChanges | github_pr_watch_poll.go:1585-1656 | A commit is accepted exactly when the watch is on and scope and sequence number match; refused, it leaves no trace; accepted, events go in once per key with an exact count, and each pull request has its last upsert unless deleted |
| PrWatchStore.RunAuthor | github_pr_watch_poll.go:326-416 | The poll's loops append, for each pull request seen and then each one leaving, its first sight, other news and transitions in the program's order, and exactly the observations kept and dropped; what the other role reports comes before or after, as the roles are configured |
| PrOutcomes.LeavingDecided | github_pr_watch_poll.go:827-868 | A tracked pull request the search no longer lists is gone after the commit exactly when it was merged, closed or archived or is missed for the sixth time; else it stays, missed once more, with its fetched detail and all else unchanged |
| PrOutcomes.LeavingReports | github_pr_watch_poll.go:412-414 | Its news stands in the poll's events, after those of the pull requests listed |
| PrOutcomes.SeenDecided | github_pr_watch_poll.go:702-817 | A listed pull request is kept with the facts of this poll: search, merge state if fetched for this head and else carried over, detail if fetched and else carried over; a definite verdict or mergeability is remembered and an unknown one leaves the memory |
| PrOutcomes.ListingReports | github_pr_watch_poll.go:753-815 | Its events stand together: observed, then its news, at first sight; else its news, then ready or lost, then conflict, each exactly when not so remembered, between the other roles' events in their order |
| PrOutcomes.NothingElseReported | github_pr_watch_poll.go:753-815 | No other observation, readiness or conflict event is reported |
| PrReadinessRuns.CacheAgreesWithReplay | github_pr_watch_poll.go:1513-1548 | In every run in which each committing poll started in a later whole second than the one before, and lists a pull request again only with the same answers, the cache remembers "ready" exactly when replaying the log says so, across wipes and re-watching; a remembered conflict is always replayed |
| PrReadinessRuns.ReadinessAlternates | github_pr_watch_poll.go:736-793 | In such runs, successive readiness signals of one pull request are opposite, strictly later, and ready_to_merge or readiness_lost accordingly |
| PrReadinessRuns.SameSecondDisagrees | github_pr_watch_poll.go:803-815 | Two polls in one second can leave cache and replay in disagreement |
| PrRepeats.RepeatsChangeNothing | github_pr_watch_poll.go:449-496 | A poll that lists pull requests again with the same answers commits exactly what it would if each were listed once |
| PrListings.AgreementSurvivesListings | github_pr_watch_poll.go:406-411 | However often a poll lists a pull request and however the listings differ, after its commit the cache and the replayed log agree on its readiness exactly when the listings do, by the first and last of them and whether any turns it |
| PrListings.ListedTwiceDisagrees | github_pr_watch_poll.go:449-496 | A pull request listed as ready and then as a draft is remembered as not ready and replayed as ready |
| PrReadinessLog.AgreementSurvivesExactly | github_pr_watch_poll.go:803-815 | For any log and any transition, the agreement survives it exactly when no earlier readiness event sorts after the new one |
| PrReadinessLog.InsertedSignal | github_pr_watch_poll.go:1513-1548 | An event added to a log read in text order counts as the last signal exactly when nothing that bears on readiness sorts after it |
| PrReadinessLog.ReplayedInOrder | github_pr_watch_poll.go:1513-1548 | For logs written in distinct seconds, text order gives the same last signal as the order of writing |
| PrReadinessLog.ConflictReplayed | github_pr_watch_poll.go:1513-1548 | In such logs a recorded conflict is always replayed |
| PrReadinessLog.ReplayDecided | github_pr_watch_poll.go:1513-1548 | For any log, a replay gives what the last event in the query's order says of readiness, and of mergeability, and nothing exactly when none says anything |
| Readiness.Assess | github_pr_watch_poll.go:1097-1166 | The loops and flags give the verdict and exactly the reasons that hold, in order |
| Readiness.Monotone | github_pr_watch_poll.go:1097-1166 | Learning unknown parts, over any reviews and threads, never changes a verdict of true or false |
| Readiness.FalseIsExact | github_pr_watch_poll.go:1097-1166 | The verdict is false exactly when no way the unknown parts could turn out is ready |
| Readiness.ReasonsListed | github_pr_watch_poll.go:1097-1166 | Each reason is listed exactly when it holds, and there is one exactly when the verdict is false |
| Readiness.VerdictDecided | github_pr_watch_poll.go:1097-1166 | Each reason, the fixed order of the reasons and the verdict in terms of the facts themselves: pending checks block like failed ones, an undecided review needs an approval and no request for changes |
| ReviewerWatch.ReviewRequest | github_pr_watch_reviewer.go:133-170 | The scan over requested reviewers gives the request, or none, by who is named, which teams are the user's or ignored, and whether the list is complete |
| ReviewerWatch.DroppedOnlyOnEvidence | github_pr_watch_reviewer.go:133-170 | A pull request in the search is dropped exactly on complete evidence: the user is not named and, unless only direct requests count, some team is and all of them are ignored |
| ReviewerOutcomes.RequestDecided | github_pr_watch_reviewer.go:133-170 | In the search and outside it, when there is a request and what it holds, in terms of the listed logins and teams |
| ReviewerWatch.RequestsBalance | github_pr_watch_reviewer.go:172-256 | After every run, requests announced or taken as given since the last wipe, less those seen off by a removal, merge, close or unwatch, are one for a tracked pull request and none otherwise |
| ReviewerWatch.ObservedOnce | github_pr_watch_reviewer.go:192-216 | Over every run, wipes included, a pull request is announced as observed at most once, exactly when it has a baseline, and the cache carries that baseline |
| ReviewerWatch.BaselineNeverMoves | github_pr_watch_poll.go:1500-1511 | A stored baseline survives every step unchanged |
| ReviewerWatch.ReviewedMeansReported | github_pr_watch_reviewer.go:293-303 | A removal is put down to a review exactly when the same poll reports that review just before it, and says nothing else about the pull request |
| ReviewerWatch.PollOutcome | github_pr_watch_reviewer.go:172-256 | Each pull request's events and its place in the cache after a poll are decided by its own case alone: seen, leaving, or neither |
| ReviewerWatch.RunReviewer | github_pr_watch_reviewer.go:172-256 | The two loops of the poll accumulate exactly those outcomes |
| ReviewerOutcomes.LeavingDecided | github_pr_watch_reviewer.go:229-253 | A tracked pull request the search does not show: its review is reported when its id is new, then merged, closed, removed or unwatched exactly by its follow-up, the archive and the sixth missed poll; else it is kept, missed once more |
| ReviewerOutcomes.SeenDecided | github_pr_watch_reviewer.go:187-227 | One the search shows: dropped, and reported as removed if tracked, on complete evidence; else tracked with its request, review and baseline, announced as observed the first time ever and as requested after the first poll |
| ReviewerOutcomes.StartsOver | github_pr_watch.go:400-407 | After a wipe nothing is tracked, and the next poll announces no request and observes only what was never observed |
| ReviewerRuns.RunIsSerial | github_pr_watch_poll.go:1585-1599 | However polls, enables, disables and scope changes interleave, with cache, poll flag and each baseline read at different moments, the reviewer role's state is that of a run of whole polls and wipes in the order of their commits |
| ReviewerRuns.InterleavedBalance | github_pr_watch_reviewer.go:172-256 | So requests balance, and pull requests are observed once, after every interleaving |
| ReviewerRuns.ActionsDecided | github_pr_watch.go:389-414 | What each action does to the fence row and the stored state: a change of the watch wipes exactly when it goes off or its scope changes, and a commit needs the very fence it read |
| DetailPaging.FetchDetails | github_pr_watch_poll.go:602-678 | The fetch ends under any pattern of timeouts, where the machine of its requests stops, with that machine's results, batch size and batches asked, each page of which resumes where the stored cursor says |
| DetailPaging.PagesAsked | github_pr_watch_poll.go:609-676 | Every page asked for is asked for where it belongs: at the stored since and cursor of its pull request, or at the beginning when nothing is stored, plus a hundred items for each page before it in this poll |
| DetailPaging.AskedInRounds | github_pr_watch_poll.go:621-676 | Nobody is asked for a second page before everybody's first is answered, and so on: among answered batches no later one asks for a page of an earlier round |
| DetailPaging.FetchExplained | github_pr_watch_poll.go:613-676 | It gives up exactly when the last batch asked failed or timed out with one id; otherwise an id is missing exactly when its first page was answered with null, and each timeline is a gapless slice from the stored since and cursor, of at most ten pages, cut short exactly when a later page of it was answered with null |
| DetailPaging.PollContinues | github_pr_watch_poll.go:1027-1033 | A poll that does not complete a timeline keeps `since`, and the next poll continues exactly where it stopped, unless and only unless an asked batch was answered with null for a later page |
| DetailPaging.NullPageStartsOver | github_pr_watch_poll.go:648-652 | Run against a provider that shows a page and then answers null, the fetch keeps no cursor and the next poll repeats the page |
| DetailPaging.TimelineFetchedOnce | github_pr_watch_poll.go:602-678 | Over any number of resumed polls, none cut short, the pieces concatenate to exactly the timeline the provider showed when its end was reached |
| DetailPaging.SteadyPoll | github_pr_watch_poll.go:602-678 | Of a timeline that does not change, a poll resumed at any cursor fetches all that is left when that is at most a thousand items, and else the next thousand, keeping the cursor after them |
| DetailPaging.TwoPollsComplete | github_pr_watch_poll.go:612-676 | So two polls complete any timeline of more than a thousand and at most two thousand items, each item once |
| DetailPaging.ShrinkBatches | github_pr_watch_poll.go:523-527 | A timed-out batch is asked for again strictly smaller, and never empty |
| SessionProjection.LoadProjections | ai_sessions.go:867-1028 | Whatever order rows come in, each session's selected items are the latest rows of their classes, of equal instants the one with the greatest id, and its flags are exact; start, end and project are those of some row that has them |
| SessionProjection.OrderIndependent | ai_sessions.go:886-1003 | Rows with the program's ids load to the same projections of all sessions in every order |
| SessionProjection.WritesAreStored | ai_sessions.go:1452-1475 | However events are written and retried, INSERT OR IGNORE under the program's ids leaves rows of that kind |
| SessionProjection.OrderIndependentExactly | ai_sessions.go:886-1003 | Of arbitrary rows with distinct ids, every order gives the same projection of a session exactly when its starts agree on payload and instant, its ends on payload, and its rows on the project |
| SessionProjection.ProjectionUnique | ai_sessions.go:1034-1053 | What a projection must be, said without an order, has one solution exactly under the same condition |
| SessionProjection.LastReadShows | ai_sessions.go:935-979 | Of several starts or ends, in any rows, the one read last is the one shown |
| SessionProjection.HandoffUsesNewest | ai_handoff.go:91-133 | A handoff that passes its checks uses the checkpoint that no other is later than, which is the one just recorded if one was, and likewise the observation evidence of everything stored at its last read, valid or not |
| SessionProjection.HandoffAccepts | ai_handoff.go:91-133 | Once the first read passed, when the newest checkpoint and evidence at the last read are usable exactly those are handed off, unless a checkpoint was just recorded and is not the newest, and then it is refused for that |
| SessionProjection.HandoffDecided | ai_handoff.go:91-133 | Exactly when a handoff passes, and which of its checks refuses it otherwise |
| SessionProjection.FindLatestByNativeId | ai_native.go:739-802 | Over all stored rows, the lookup finds the session of this tool and native id with the latest event, of equal ones the smallest id, and none only when there is none |
| SessionProjection.CandidateMeans | ai_native.go:751-785 | In any order of the rows a candidate has exactly the native ids they name and their latest instant, and the tool of its start events when those agree |
| Handoff.BuildContext | ai_handoff.go:226-272 | The whole list of dirty paths when it fits, otherwise the longest proper prefix that does, nothing when not even the empty one does, and never a context over budget |
| Handoff.SearchFirst | ai_handoff.go:252-271 | Binary search finds the first index of a condition that stays true |
| Handoff.PrefixCost | ai_handoff.go:252-271 | A longer prefix of paths never costs less, which is what the binary search needs |
| Handoff.LongestUnique | ai_handoff.go:252-271 | The longest fitting prefix is unique, so the context is determined |
| Handoff.TotalCost | ai_handoff.go:301-307 | The loop adds up the cost of every argument |
| Handoff.CommandLineWithinCost | ai_handoff.go:297-307 | The cost bounds the length of the command line under Windows quoting, with doubled backslashes and escaped quotes |
| Handoff.HandoffFitsCommandLine | ai_handoff.go:208-224 | A context within the computed budget keeps the quoted command line and its terminator within 32767 |
| Handoff.BudgetIsExact | ai_handoff.go:208-224 | A context is within the budget exactly when it costs at most 30 KiB and the whole line at most 32767 |
| Handoff.CostIsReached | ai_handoff.go:297-299 | There are arguments of any number of quotes or backslashes whose quoted form needs their whole cost |
| Handoff.LineCostIsReached | ai_handoff.go:301-307 | And lines of such arguments need the whole cost of the line |
| SearchMerge.SearchIsComplete | github.go:355-415 | When the bisection succeeds it has found exactly the items of the window, however often it split |
| SearchMerge.SearchFailsExactly | github.go:355-397 | It gives up exactly when some window it comes to by bisecting is answered with a failure, or is saturated and no longer than a minute |
| SearchMerge.MergeEvents | github.go:417-432 | One event per kind, repository and number, in agreement with the index map throughout |
| SearchMerge.StandsForSame | github.go:434-453 | Merging an event into another of its key keeps the first newest of all merged so far, with the scopes of all of them |
| SearchMerge.ParticipantEvents | github.go:313-353 | When every search succeeds: exactly one event per key any of them holds in the window, none for an empty window, the newest update, the union of scopes; an error exactly when one search comes to a failing or unsplittable saturated window |
| SignalRelay.ConservedAlways | ai_process_unix.go:77-116 | Under every interleaving, what was sent, then what is pending, then what is still in the channel, is exactly the accepted TERM and HUP signals in order, and nothing is pending once a child is attached |
| SignalRelay.NothingLost | ai_process_unix.go:78-79 | Everything that arrived is accounted for that way exactly when every TERM or HUP that came before the stop found room in the channel |
| SignalRelay.RelayedExactly | ai_process_unix.go:94-97 | TERM and HUP are relayed, INT and QUIT are not, in order |
| SignalRelay.ChannelsHold | ai_process_unix.go:77-80 | Four unread signals and one untaken child fit; a fifth signal is dropped |
| SignalRelay.StopsForGood | ai_process_unix.go:109-113 | Nothing arrives after the stop, the loop ends only after it, and then nothing is sent |
| SignalRelay.InterruptsCrowdOutTerminate | ai_process_unix.go:78-97 | Four unread interrupts make the relay drop a TERM |
| SignalRelay.Drains | ai_process_unix.go:84-108 | A running relay with a child, left to itself, delivers every accepted TERM and HUP |
| SignalRelay.SentToAttached | ai_process_unix.go:84-108 | Signals go only to processes that were attached |
| SignalRelay.Relay.TakeChild | ai_process_unix.go:88-92 | Attaching sends all pending signals in order, to the new child only, and empties the queue |
| SignalRelay.Relay.TakeSignal | ai_process_unix.go:93-107 | A TERM or HUP, and nothing else, goes once to the end of what was sent to the current child, or of the pending queue when there is none; sent followed by pending grows by exactly that, and the child stays |
| MailRecipe.NormalizeMicrosoftMailRecipe | bridge_recipes.go:46-105 | The loop succeeds exactly when some page ends the reading properly, and then returns the window's messages of the pages read; otherwise it reports the first thing wrong with the first page that is refused, and the errors that depend on no single page exactly when they apply |
| MailRecipe.FiltersWholeMailbox | bridge_recipes.go:46-105 | For a newest-first mailbox that marks truncated pages and lost links, success means the result is the plain filter over the entire mailbox, unread pages included, in whatever order the pages were handed over |
| MailRecipe.WindowExactly | bridge_recipes.go:82-90 | The filter keeps exactly what was received from the start of the window until before its end, in order |
| MailRecipe.ReadInOrder | bridge_recipes.go:60-72 | The accepted pages are the mailbox's own first pages and show all they hold |
| MailRecipe.SoundMailboxAccepted | bridge_recipes.go:46-105 | A mailbox of sound pages, all handed over, is never refused |
| MailRecipe.StopIsUnique | bridge_recipes.go:94-103 | At most one page can end the reading, so the result is determined |
| MailRecipe.StopExactly | bridge_recipes.go:94-103 | Where reading stops with success, in terms of links, messages and the completion marker |
| MailRecipe.AcceptedExactly | bridge_recipes.go:60-81 | What a page needs to be accepted after accepted ones |
| MailRecipe.ProblemExactly | bridge_recipes.go:60-72 | Which error a page's link or cut gives, in order of the checks |
| MailRecipe.MessageProblemExactly | bridge_recipes.go:74-82 | And which the first wrong message gives: no id, no time, or newer than the one before |
| Associations.SuggestionIsSymmetric | associations.go:230-328 | Two events give the same suggestion from either end; for an accepted pair exactly when their ids differ and their times are less than 2^63 ns apart |
| Associations.CoalescesToOneSuggestion | associations.go:330-395 | Explaining from both ends leaves one row, the same in every field as explaining once |
| Associations.WhatIsAccepted | associations.go:246-306 | Exactly which combinations of signals are accepted and which with high confidence; a project and closeness in time never suffice |
| Associations.EvaluateAssociationPair | associations.go:230-328 | Score and matched signals built step by step are the capped total of exactly the signals that match |
| Associations.SuggestionDecided | associations.go:230-328 | The suggestion in terms of what the events share: 100, 90, 85 and 65 points, those of the words, 20 and the closeness, none under 60, at most 100, high confidence from 80, ids in order and sources by id |
| Associations.OverlapExactly | associations.go:634-658 | Overlap needs three words a side, two shared and half of all; four fifths are worth 50 points, three fifths 40, half 30 |
| Associations.MatchesExactly | associations.go:674-690 | A commit matches when it begins one of the other side |
| Associations.CoalescedExactly | associations.go:352-389 | One row per pair: latest evidence, first creation time, and an update time that moves on only when the evidence changed |
| Associations.AssociationTokenOverlap | associations.go:634-658 | The loops compute shared over united tokens, with the three thresholds |
| Associations.FirstCommonValue | associations.go:660-672 | The least common value, whatever order the maps are walked in |
| Associations.MatchingCommit | associations.go:674-690 | The least of the shorter commits over all pairs of which one begins with the other |
| Associations.DistanceSymmetric | associations.go:726-731 | The saturating distance is symmetric exactly below 2^63 ns |
| Associations.SaturatedApart | associations.go:726-731 | Two events that far apart are within fifteen minutes of each other from one end and not from the other |
| Associations.IdentitySymmetric | associations.go:692-706 | Ids are canonical, and sources follow them exactly when the ids differ |
| ShellQuote.CommandRoundTrip | ai_sessions.go:1669-1682 | POSIX word splitting (section 2.2.2 of the POSIX.1-2017 Shell Command Language) of the quoted command gives back exactly the arguments, empty strings and quotes included |
| ShellQuote.JoinedExactly | ai_sessions.go:1669-1675 | The quoted arguments stand one blank apart, with none before the first and after the last |
| ShellQuote.PosixArgumentRoundTrip | ai_native.go:613-615 | The same splitting undoes the other quoting form |
| ShellQuote.ShellCommand | ai_sessions.go:1669-1675 | The loop quotes each argument and joins them |
| ShellQuote.QuotedExactly | ai_sessions.go:1677-1682 | A word stays unquoted exactly when it is not empty and has only letters, digits and the nine harmless signs |
| ShellQuote.QuotesExactly | ai_native.go:613-615 | A quote inside becomes an escaped one in the one form and a double-quoted one in the other |
| DirtyPaths.ParseDirtyPaths | ai_sessions.go:1631-1667 | The offset loop gives the sorted, duplicate-free listing of the parsed paths, or the first problem |
| DirtyPaths.RoundTrip | ai_sessions.go:1631-1667 | Parsing what git prints gives the set of all target and source paths, renames and copies included |
| DirtyPaths.UnterminatedRejected | ai_sessions.go:1631-1667 | Any unterminated tail is rejected, whether it starts an entry or is the source of a rename |
| DirtyPaths.MalformedRejected | ai_sessions.go:1631-1667 | A terminated entry that is too short or lacks the blank after its status is rejected as malformed |
| DirtyPaths.AcceptsOnlyPrinted | ai_sessions.go:1631-1667 | Whatever is accepted is the printed form of some entries, with exactly their paths |
| Rfc3339.TextOrder | bridged_capture.go:217-219 | Timestamp text order is time order exactly when the whole seconds differ or the earlier fraction is not a prefix of the later one (format of section 5.1 of RFC 3339) |
| Rfc3339.GuardSlack | bridged_capture.go:662-663 | A guard on stored instants errs by less than one second |
| Rfc3339.SameSecondReversed | bridged_capture.go:821-823 | Half a second past a whole second sorts before it |
| Rfc3339.CalendarExactly | bridged_capture.go:217-219 | Every day of a year is written as the month and day the calendar gives, leap years included |
| Rfc3339.FormatExamples | bridged_capture.go:217-219 | What stored instants look like, at the start of an era, on a leap day and with a fraction |
| Text.LessExactly | bridged_capture.go:662-663 | A text comes before what it begins, and otherwise the first difference decides |
| Text.LowerExactly | github.go:417-432 | Lower case moves exactly the letters from A to Z, each by 32 |
| Text.ListingUnique | ai_sessions.go:1631-1667 | A set has only one ascending listing, so any correct sort gives the same |

## Left out

- OutboxRuns.NoGap: the direct GitHub and Notion captures, which write their cursors unconditionally
  (github.go:266-269), are not steps of the run; the theorem is about bridged connectors.
- OutboxRuns.BatchStoredOnlyByCompletion: events are opaque identifiers; payload validation, scope checks
  and empty proofs before the transaction are not modelled.
- OutboxStore.Store.ClaimBatch: the filter on a request's task, stored as JSON, is an arbitrary predicate on
  its id.
- PrReadinessRuns.CacheAgreesWithReplay: requires that each poll that commits started in a later whole second
  than the one before (and before the year 10000), and that a search lists a pull request again only with the same
  answers; without the first, AgreementSurvivesExactly is the exact condition for one transition, and without the
  second AgreementSurvivesListings that for one poll.
- PrWatchStore.RunAuthor: what the feedback, check and lifecycle events of a pull request say is arbitrary.
- PrReadinessRuns.ReadinessAlternates: holds under the same conditions on polls and searches; a resolved conflict emits no event, so nothing is claimed about
  conflicts being over.
- ReviewerWatch.RequestsBalance: counts the events of committed polls, before the log drops those whose key
  it already has (a merge or close seen by both roles is stored once); the search is taken to list a pull request once.
- ReviewerWatch.ReviewRequest: logins and team names are compared with ASCII case folding only.
- DetailPaging.FetchDetails: an oracle shows timelines that only grow at their end; response size limits and
  rate-limit deferral are not part of this model.
- SessionProjection.CandidateMeans: the tool is claimed only for sessions whose start events agree on one; without
  a start event it is that of the first binding read.
- SessionProjection.OrderIndependent: how a project is inferred when a session is launched, and the warnings about
  rows that do not decode, are not modelled.
- Handoff.BuildContext: JSON encoding is an arbitrary per-path function between two fixed parts; redaction
  and credential checks are not modelled.
- SearchMerge.ParticipantEvents: update times are parsed instants; the text comparison used when one does not
  parse is not modelled, nor is repository batching of the always-included searches.
- Associations.EvaluateAssociationPair: how signals are extracted from payloads and text is left abstract, and
  the overlap is a real number; its float64 value is on the same side of the thresholds for sets of any
  practical size.
- Associations.CoalescesToOneSuggestion: suppression, status changes and the suggestion's hash id are not modelled.
- SignalRelay.ConservedAlways: delivery errors of the operating system are ignored, as the code ignores them.
- DirtyPaths.RoundTrip: repairing invalid UTF-8 and separators is an arbitrary function of the path's bytes.
- Merge state batches (`fetchMergeStates`), team paging and caching, and the associate cadence: simpler
  members of kinds already covered.
- Slack list snapshots, project links, connector scope validation, plugin installation, OAuth, HTTP clients,
  process launching and file locks: effects and case tables outside the model.

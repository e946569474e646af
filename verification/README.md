# Argus: a verified model

This project models the stateful core of the Argus intelligence engine in Dafny and proves what the engine
relies on. Reports collected from sources are clustered into events and projected into a durable pool, facts
are extracted from them and connected into a claim graph, digests are published with model retries, and
notifications leave through durable queues. A table is a map or a sequence, a unit of work is one method, and
a crash may fall between any two transactions.

| module | models |
|---|---|
| `Ordering` | stable sorting, filtering and counting shared by the others |
| `EventIdentity`, `PairScore`, `PairScoreLaws` | identities, the pair score and its laws |
| `Clustering`, `ClusteringOrder`, `ClusteringEvents`, `ClusteringOfPairs` | the greedy complete-linkage pass, the order it works in, the events it returns, and when input order shows |
| `EventStore`, `EventSaves`, `EventAggregates` | saving projections made from stale snapshots, what a save does to every row, and what it writes over |
| `EventPool`, `PoolLaws`, `EventPaging`, `EventWindow` | matching and projecting, keyset paging with frozen bounds, and what the window shows |
| `ContentQueue`, `ContentEffects` | leased document fetches and per-host pauses read off failure rows |
| `FactStore`, `FactEffects`, `ClaimGraph`, `FactCorrections`, `ClaimEffects` | leased fact jobs, slots, detaching, supersedes pointers and confirmed corrections |
| `DigestFreeze`, `FreezeLaws`, `DigestProtocol` | the ancestry a digest freezes, publication and retries across crashes |
| `DigestSelection`, `SelectionLaws` | what a digest contains |
| `Outbox`, `AlertSuppression`, `AlertEffects`, `Reminders`, `ReminderEffects` | the alert outbox, suppression, and reminder repeat chains |
| `ManagedConfig`, `ConfigEdits` | interleaved editors of the managed configuration, and single edits |

Each module first gives the transactions as functions of the state, then lemmas about single steps, then the
theorems about whole runs, and last the loops and classes, whose contracts equate them with those functions. The
modules beside it say what those functions do to each row, without naming them.
`dafny verify dfyconfig.toml` checks everything.

## Where promises of the code and its documentation end

The model follows the code; each point is a lemma.

- `docs/CONTENT.md` says that "retry failure timestamps are not moved during deferral, so a pause cannot extend
  itself indefinitely". Deferral indeed moves none (`ContentQueue.DeferringMovesNoPause`), but an expired lease
  keeps the kind of an earlier failure and stamps the row anew (`ContentQueue.ExpiryMovesPause` gives the exact
  condition), and so one refusal can pause a host without bound (`ContentQueue.PauseCanExtendItself`).
- Clustering promises independence of input order. It holds for distinct (report id, id) keys
  (`Clustering.ClusteringIgnoresOrder`); for a pair with equal keys the order shows exactly when
  `ClusteringOfPairs.PairShowsOrderIff` says so, for instance for two reports of one occurrence and time.
- `adaptive_digest_item_count` says immediate clusters are never removed merely because the day is quiet. The
  pool variant places included events first and can drop an immediate one
  (`DigestSelection.ImmediatesAreKeptIff`, `DigestSelection.PoolCanDropAnImmediateEvent`).
- No save of a claim settles a slot again. A manual claim that supersedes one of exactly two live automatic
  claims leaves the other marked disputed (`FactCorrections.ManualClaimLeavesALoneDispute`,
  `ClaimGraph.ManualSupersedeKeepsSlotsIff`); `ClaimGraph.SaveKeepsSlotsIff` has the condition for every save.
- Scores and topics of an event are merged with a snapshot and then written over the row, so that a stale save
  drops what another one added (`EventAggregates.TopicsCanBeLost`), exactly when it does not cover the row
  (`EventAggregates.SaveKeepsAggregatesIff`). Bounds and counts stay exact (`EventStore.SaveKeepsValid`).
- A confirmed correction does not look at ancestry and can close a cycle of pointers
  (`FactCorrections.CorrectionCanCloseACycle`), exactly when the old claim leads to the new one
  (`FactCorrections.CorrectionKeepsSoundIff`), which takes a save with a pointer that is not active or revives a
  superseded claim (`FactCorrections.OrderlyRunKeepsSound`).
- Two projectors with stale matches can put a raise and a cut into one event
  (`EventPool.StaleMatchesMayConflict`), exactly when the later report no longer agrees with the event it is
  saved into (`EventPool.ProjectKeepsCoherentIff`).
- An operator's retry can bring back a weather or news alert next to a live one of the same priority
  (`AlertSuppression.RevivalCanRepeatAnAlert`); it keeps the rules exactly for alerts that still fit
  (`AlertSuppression.RevivalKeepsRulesIff`).
- A crash between marking a retry failed and counting the failed day leaves the day out of the streak
  (`DigestProtocol.DigestScheduler.FinishFailure`), for good (`DigestProtocol.LoseADay`).
- A commit that explicitly expects a revision after its snapshot can undo other editors' commits
  (`ManagedConfig.UnseenRevisionOverwrites`, `ManagedConfig.UnseenRevisionLosesAnUpdate`).

## Taken as given

Hashes are collision free and stand for the material they are made of; lease tokens are fresh. Clocks, the
civil calendar, title similarity, the logarithm of the corroboration bonus, the next daily occurrence of a
reminder and the time of an edited one-time reminder (both ahead of the clock), built documents and model
answers are parameters. Scores are reals. The clock of claims, edits and reminder passes does not run backwards
where a lemma says so. Existing ratings and alert statuses do not change between the pages of one reader, and no
event is split by hand or merged while projections run.

## Model

| member | source | states |
|---|---|---|
| `EventIdentity.CompatibleIsNotTransitive` | src/argus/event_identity.py:41-46 | an announcement is compatible with a raise and with a cut that exclude each other, so the relation cannot be kept by checking neighbours only |
| `PairScore.PositiveScore` | src/argus/event_clustering.py:403-499 | a positive score means the same verified occurrence, or that every hard boundary is respected: time window, generic titles, finance countries, opposite rate actions, decisions of known banks; and no score exceeds 1 |
| `PairScoreLaws.ScoreIsPositiveIff` | src/argus/event_clustering.py:403-499 | conversely the score is positive exactly for a common verified occurrence and for reports that respect every boundary, the ones of topics, regions and capital injections included |
| `PairScoreLaws.ScoreIsWorth` | src/argus/event_clustering.py:403-499 | what reports that respect every boundary score: the weighted sum of titles, entities, times, numbers and regions, more only with a reviewed term in common, up to 0.92, or for one decision of a bank, at least 0.96 |
| `PairScoreLaws.CopyScoresOne` | src/argus/event_clustering.py:438-446 | a report matches its own copy with exactly 1, so the weights add up |
| `PairScoreLaws.ScoreIsSymmetric` | src/argus/event_clustering.py:403-499 | the score does not depend on the order of the two reports if the title comparison does not |
| `PairScoreLaws.CloserTitlesScoreHigher` | src/argus/event_clustering.py:403-499 | more similar titles never score lower, across all boundaries |
| `PairScoreLaws.JoinedContradictIff` | src/argus/event_clustering.py:490-499 | joined reports contradict each other exactly when both name figures, none in common, under similar titles and about some of the same entities |
| `PairScoreLaws.RegionsGoTogetherIff` | src/argus/event_clustering.py:396-400 | which regions go together |
| `PairScoreLaws.RegionIsLocated` | src/argus/event_clustering.py:425-426 | the one country of a finance ministry counts as the region, otherwise the own region does |
| `EventIdentity.SameOccurrenceIff` | src/argus/event_identity.py:88-97 | two verified occurrences are one exactly under the same official identifier or the same structured facts |
| `Clustering.GuardIsFullLinkage` | src/argus/event_clustering.py:546-553 | over stored edges the guard, although its floor lies below the threshold, accepts exactly the components whose pairs all have an edge at the full threshold |
| `Clustering.ExamineKeeps` | src/argus/event_clustering.py:585-595 | examining one edge keeps membership and components consistent, keeps every component a clique, only ever grows components, and leaves the edge inside one component or between two that cannot be united |
| `Clustering.PassKeeps` | src/argus/event_clustering.py:582-595 | the same after any number of edges: every edge examined so far is settled for good |
| `Clustering.GroupPartitions` | src/argus/event_clustering.py:581-595 | every index is in exactly one component, once |
| `Clustering.GroupIsPairwise` | src/argus/event_clustering.py:546-595 | any two members of a component have their own edge at the full threshold |
| `Clustering.GroupIsMaximal` | src/argus/event_clustering.py:581-595 | after the single pass no two non-empty components have a union the guard would accept |
| `ClusteringOrder.StrongestIsExaminedFirst` | src/argus/event_clustering.py:571-585 | exactly the pairs scoring at least the threshold are examined, each once, the higher score first and of equals the pair with the smaller indices |
| `ClusteringOrder.StrongerEdgesWin` | src/argus/event_clustering.py:582-595 | for every level: reports joined by the pass over only the edges of at least that score are together in the final grouping, whatever weaker edges there are |
| `ClusteringOrder.StrongestIsJoined` | src/argus/event_clustering.py:582-595 | the strongest pair of all is always in one component |
| `ClusteringEvents.StrongestShareAnEvent` | src/argus/event_clustering.py:556-748 | and so in one event |
| `Clustering.ClusteringIgnoresOrder` | src/argus/event_clustering.py:567-748 | permuting observations with distinct (report id, id) keys gives the identical sequence of events |
| `Clustering.PreparedOrderOfPair` | src/argus/event_clustering.py:567-570 | two titled observations are prepared in an order independent of the input exactly when they are equal or their (report id, id) keys differ |
| `ClusteringOfPairs.PairShowsOrderIff` | src/argus/event_clustering.py:556-748 | the order of any two observations shows in the events exactly for two different titled ones with the same keys that are linked one way only, or linked both ways with different scores or names or at equal times, or linked neither way with single events that tie |
| `ClusteringOfPairs.TwinsHideOrderIff` | src/argus/event_clustering.py:556-748 | the same condition for two different titled observations with the same keys |
| `ClusteringOfPairs.TwinsOfOneOccurrenceShowOrder` | src/argus/event_clustering.py:556-748 | two reports of one verified occurrence with the same keys and time always give different events in the two orders |
| `Clustering.EventIsPairwise` | src/argus/event_clustering.py:403-499 | any two reports of one event share a verified occurrence or respect every boundary, the decision compatibility that is not transitive included |
| `Clustering.MatchScoreReachesThreshold` | src/argus/event_clustering.py:702-716 | the published match score of every report lies between the threshold and 1 |
| `Clustering.ClusteringPartitions` | src/argus/event_clustering.py:567-748 | the reports of all events together are, as a multiset, exactly the observations with a non-blank title |
| `ClusteringEvents.EventIsExact` | src/argus/event_clustering.py:597-747 | every event: reports newest first; match score the best score against another report of the event, and 1 alone; a contradiction mark only with another report behind it; time, sources and score exactly what its reports give; named by its reports in their order |
| `ClusteringEvents.EventsAreSorted` | src/argus/event_clustering.py:748 | events come by score, then time, then id |
| `Clustering.ScoreOne` | src/argus/event_clustering.py:575-579 | scoring a pair extends the stored edges and contradictions by exactly what the score says |
| `Clustering.CollectEdges` | src/argus/event_clustering.py:571-579 | the two nested loops compute exactly the edge map and the contradiction set of all pairs scored in sorted order |
| `Clustering.ExamineEdge` | src/argus/event_clustering.py:585-595 | the in-place update of components and membership computes the specified step |
| `Clustering.Enrol` | src/argus/event_clustering.py:593-594 | the inner loop gives every member of the merged component the new index and no other |
| `Clustering.RunPass` | src/argus/event_clustering.py:584-595 | the loop over the sorted edges computes the specified pass |
| `Clustering.BuildEvents` | src/argus/event_clustering.py:597-747 | one event per non-empty component, in component order |
| `Clustering.ClusterEvents` | src/argus/event_clustering.py:556-748 | the two argument errors, otherwise the specified events in score order; the properties above are proved of that result |
| `EventPaging.WindowIsFrozen` | src/argus/database.py:4959-5051 | reports and alerts appended after the high-water marks never change the rows of the window |
| `EventWindow.RankingIsExact` | src/argus/database.py:4961-5009 | read off the tables: one row exactly for each event with a report that lies below the high-water mark and was published or alerted in the window, with the exact number, time span, importance, score, number of sources and urgency of just those reports |
| `EventWindow.RankingIsSorted` | src/argus/database.py:5021-5025 | newest first, or by importance, score, time and id |
| `EventWindow.WindowIsOpenToAll` | src/argus/database.py:5036-5046 | the high-water marks of a first page exclude nothing that is stored |
| `EventWindow.PageIsRefusedIff` | src/argus/database.py:4905-4951 | which requests are refused, and how: bad limit, cursor or window, or a merge or split since the cursor was made |
| `EventPaging.AfterIsTheRest` | src/argus/database.py:5013-5051 | filtering by the anchor condition and sorting gives exactly the part of the full ranking behind the anchor |
| `EventPaging.CursorsAreAccepted` | src/argus/database.py:5100-5112 | every cursor the list hands out passes its own decoding checks, for every row of the ranking |
| `EventPaging.FirstPage` | src/argus/database.py:4926-5112 | the first page is the first slice of the ranking frozen at that moment |
| `EventPaging.NextPage` | src/argus/database.py:4926-5112 | the page after any row, asked of a database that was appended to meanwhile, is the next slice of the same frozen ranking |
| `EventPaging.RequestContinues` | src/argus/database.py:4926-5112 | every request of a reader continues exactly where the reader stands |
| `EventPaging.CursorsReadTheRanking` | src/argus/database.py:4926-5112 | following cursors with any page sizes reads the frozen ranking without a skipped, repeated or reordered row, and all of it when no cursor is left |
| `EventPaging.Request` | src/argus/digest.py:716-733 | one request of the digest loop extends what was read and advances the cursor whenever it returns one |
| `EventPaging.CollectEvents` | src/argus/digest.py:716-736 | the loop collects exactly the first min(observation limit, total) events of the frozen ranking; its error for a cursor that does not advance is unreachable |
| `EventStore.SaveKeepsValid` | src/argus/database.py:5227-5292 | a save made from any snapshot, stale or not, keeps: exact first and last seen, exact publisher count, one event per observation, one-to-one occurrence bindings, one representative per event and source |
| `EventSaves.SavedIff` | src/argus/database.py:5227-5292 | a projection is saved exactly when identities match, its occurrence is free or bound to this event, its observation is stored and unassigned, the event was not merged away and the updates apply |
| `EventSaves.RefusalIsExact` | src/argus/database.py:5227-5292 | every other answer changes nothing; an observation assigned before is answered with its report |
| `EventSaves.OccurrenceIsBound` | src/argus/database.py:5259-5266 | a saved occurrence is bound to its event, and every other binding stays |
| `EventSaves.RunKeepsBinding` | src/argus/database.py:5236-5250 | a binding stays over every run of any number of projectors |
| `EventSaves.OccurrenceIsOneEvent` | src/argus/database.py:5236-5250 | one verified occurrence never becomes two events: after a save of it, in every run, no save of it for another event changes anything, and it is answered as taken |
| `EventSaves.RowsAreExact` | src/argus/database.py:5258-5284 | the report is added last, older reports of its source stop being representative, the named ones corroborate, nothing else changes |
| `EventSaves.EventRowIsExact` | src/argus/database.py:4707-4739 | only the row of the event changes: bounds reach out, score and topics are replaced |
| `EventSaves.SourcesAreCounted` | src/argus/database.py:5285-5290 | in every valid store each event counts exactly its differently named sources |
| `EventSaves.UpdatesApplyIff` | src/argus/database.py:5274-5284 | relation updates apply exactly when each asks to corroborate a different secondary context report of the event |
| `EventSaves.RequestIsExact` | src/argus/event_pool.py:175-215 | what a projector asks for, from its snapshot and its observation |
| `EventStore.BoundsWiden` | src/argus/database.py:4707-4739 | merging stale bounds by minimum and maximum still yields the exact bounds |
| `EventStore.RunKeepsInvariant` | src/argus/event_pool.py:118-248 | the same over any interleaving of any number of projectors |
| `EventStore.RunLosesNothing` | src/argus/database.py:5227-5292 | a saved report stays assigned to its event under every later run |
| `EventStore.SecondSaveIsIgnored` | src/argus/database.py:5227-5292 | saving an observation again, for whatever event, changes nothing and names the existing row |
| `EventStore.EventDatabase.SaveEventProjection` | src/argus/database.py:5227-5292 | the transaction with all its refusals, each of which leaves every table as it was |
| `EventStore.EventDatabase.PromoteRows` | src/argus/database.py:5227-5292 | relation updates apply all together or not at all |
| `EventAggregates.SaveKeepsAggregatesIff` | src/argus/database.py:4707-4739 | the score and topics of an event, written over instead of merged, stay the maximum and the union over its reports exactly when the saved values still cover the stored ones |
| `EventAggregates.RunStaysHonest` | src/argus/event_pool.py:197-215 | over any interleaving of any number of projectors an event never claims a score or topic that none of its reports brought |
| `EventAggregates.RunStaysAccurate` | src/argus/event_pool.py:118-248 | and it lacks none while each save still covers the row it writes over, as one made before anyone else wrote does |
| `EventAggregates.StaleSaveLosesAnUpdateIff` | src/argus/database.py:4707-4739 | of two saves from one snapshot the second undoes the first exactly when it does not bring the same itself |
| `EventAggregates.TopicsCanBeLost` | src/argus/database.py:5227-5292 | a run of two projectors from a store without events after which an event holds a report and not its topic |
| `EventStore.EventDatabase.CheckProjection` | src/argus/database.py:5227-5292 | the refusals before any write, in their order: mismatched identities and updates, merged events, taken occurrences |
| `EventPool.Match` | src/argus/event_pool.py:68-116 | the bound event if there is one, otherwise the best-ranked candidate all of whose reports accept the observation; nothing only when no candidate does |
| `PoolLaws.JoinableIff` | src/argus/event_pool.py:88-115 | which candidates can be joined: threshold, room, no other occurrence, and every single report scoring a half and not excluding the decision |
| `PoolLaws.PreferredScoresHigher` | src/argus/event_pool.py:98-102 | the candidate that scores higher is preferred, of equals the smaller key |
| `PoolLaws.SameNewEventIff` | src/argus/event_pool.py:145-156 | when two observations would open the same event |
| `PoolLaws.ProjectionIsExact` | src/argus/event_pool.py:145-248 | a projection appends to the matched event, or to that of its new identity, binds the occurrence there and touches no other event; refused it changes nothing |
| `EventPool.ProjectKeepsCoherent` | src/argus/event_pool.py:118-248 | projecting one observation with a match made on the present pool keeps all reports of events without bound occurrence pairwise compatible |
| `EventPool.ProjectKeepsCoherentIff` | src/argus/event_pool.py:118-248 | a projection from any match, present or stale, keeps that exactly when it does not add the observation to an event without bound occurrence that holds a report incompatible with it |
| `EventPool.SameSignatureAgrees` | src/argus/event_pool.py:152-248 | an observation whose new identity is already taken by an event that matching passed over agrees with everything in it |
| `EventPool.RunKeepsCoherent` | src/argus/event_pool.py:118-248 | the same over whole runs of any number of projectors whose saves do not clash |
| `EventPool.PoolEventsAreOneDecision` | src/argus/event_pool.py:88-115 | a pool event without bound occurrence never mixes banks or local dates, spans more than six hours between decisions, or holds a raise with a cut |
| `EventPool.StaleMatchesMayConflict` | src/argus/event_pool.py:118-248 | a run of two projectors that read the same pool: if an announcement scores well against a raise and against a cut, its event is joinable for both, and after both saves it holds the two |
| `EventPool.StaleSaveKeepsCoherentIff` | src/argus/event_pool.py:118-248 | a save from a stale match is harmless exactly when the observation still agrees with every report of the event |
| `ContentQueue.Backoff` | src/argus/content.py:135-145 | no pause is longer than the hour that a claim looks back |
| `ContentEffects.PauseTable` | src/argus/content.py:135-145 | the pause for every kind of failure |
| `ContentQueue.ScanMissesNothing` | src/argus/database.py:2081-2094 | the bounded scan of the last hour finds exactly the running pause that all failure rows ever imply |
| `ContentQueue.DeferringMovesNoPause` | src/argus/database.py:2095-2121 | deferring jobs never moves the end of any pause |
| `ContentQueue.ExpiryMovesPause` | src/argus/database.py:2058-2070 | the exact condition under which an expired lease does: the job still carries the kind of an earlier failure whose pause, counted anew, outlasts the present one |
| `ContentQueue.PauseCanExtendItself` | src/argus/database.py:2050-2160 | for every n a run from the empty queue with one refusal, followed by nothing but n claims whose workers die, that leaves the host paused n times 3660 seconds beyond the hour it is owed |
| `ContentQueue.ClaimRows` | src/argus/database.py:2050-2160 | a claim touches no completed, dead or running job and moves no failure row in time |
| `ContentQueue.ClaimLease` | src/argus/database.py:2050-2160 | a claim leases only a waiting job whose host has no pause left |
| `ContentEffects.ClaimIsExact` | src/argus/database.py:2050-2160 | a claim takes the first of the fifty longest waiting jobs whose host is not paused, if there is one; those ahead of it are made to wait until the latest end of a pause of their host; every other row is as the expiry left it |
| `ContentEffects.CandidatesAreExact` | src/argus/database.py:2071-2080 | considered are exactly the ready jobs with fewer than fifty ahead, in order |
| `ContentEffects.ScanIsExact` | src/argus/database.py:2081-2094 | the scan finds the latest end of a running pause, and none without one |
| `ContentEffects.ExpiryIsExact` | src/argus/database.py:2058-2070 | what becomes of a lease that ran out |
| `ContentEffects.ReportsAreExact` | src/argus/database.py:2161-2223 | the row after a completion, a failure and a rejection: completed; dead exactly if final and else waiting until the given time; dead; and nothing without the lease |
| `ContentEffects.EnqueueingIsExact` | src/argus/database.py:2022-2048 | an observation is queued once, ready at once |
| `ContentQueue.RunKeepsInvariant` | src/argus/database.py:2050-2223 | over every run, what each host is owed by its recorded failures is covered by the rows, and live tokens are fresh and distinct |
| `ContentQueue.PauseIsRespected` | src/argus/database.py:2050-2223 | in every run from the empty queue, after a failure of kind k at t and whatever happens in between, no job of the host is leased before t plus the pause of k |
| `ContentQueue.DeadTokensStayDead` | src/argus/database.py:2161-2223 | a token that leases no row never leases one again |
| `ContentQueue.LeaseSettlesOnce` | src/argus/database.py:2161-2223 | of all completions, failures and rejections reported under one lease at most one takes effect |
| `ContentQueue.ExpiredTokenIsFenced` | src/argus/database.py:2161-2223 | a report under an expired or overtaken token changes no row |
| `ContentQueue.CompletedIsFinal` | src/argus/database.py:2161-2186 | a completed job never changes again |
| `ContentQueue.FetchJobs.HostPauses` | src/argus/database.py:2081-2094 | the loop computes the scanned pause of every host |
| `ContentQueue.FetchJobs.ClaimContentFetch` | src/argus/database.py:2050-2160 | the transaction: expiry, batch of 50, deferral, lease, and the malformed row found after it |
| `ContentQueue.FetchJobs.CompleteContentFetch` | src/argus/database.py:2161-2186 | completes the row the token holds and says whether there was one |
| `ContentQueue.FetchJobs.FailContentFetch` | src/argus/database.py:2187-2223 | retry or dead by retryability and attempts; a lost lease changes nothing |
| `ContentQueue.FetchJobs.RejectMalformed` | src/argus/database.py:2122-2160 | retires a malformed row only under its own lease |
| `FactStore.CompleteKeepsValid` | src/argus/event_fact_projection.py:237-326 | a completed extraction keeps evidence under every automatic claim and every slot settled |
| `FactEffects.CompletionIsExact` | src/argus/event_fact_projection.py:237-326 | a finished extraction adds exactly its facts with their evidence, keeps every other row, settles only their slots and completes only its job |
| `FactEffects.CompletionAnswer` | src/argus/event_fact_projection.py:237-273 | which answer it gets: lease lost, report changed, collision with a manual claim, or done |
| `FactEffects.RefusedCompletionWritesNothing` | src/argus/event_fact_projection.py:237-273 | a refused one writes no fact; only a changed report sends its job back |
| `FactStore.DetachKeepsValid` | src/argus/event_fact_projection.py:350-381 | so does detaching any reports |
| `FactEffects.DisputedIffRival` | src/argus/event_fact_projection.py:314-326 | an automatic claim that is not superseded is disputed exactly when its slot holds another one |
| `FactEffects.DetachIsExact` | src/argus/event_fact_projection.py:350-381 | a detach removes exactly the automatic evidence of the reports, then exactly the automatic claims left without any and the pointers to those; it settles the slots that lost evidence and no other; only the jobs of these reports start over |
| `FactStore.RunKeepsSlots` | src/argus/event_fact_projection.py:147-381 | over every run of leases, completions, failures, detaches, moves and reviews, each automatic claim keeps evidence and all claims of a slot that are not superseded share one status, disputed exactly when two or more have evidence |
| `FactStore.LeaseSettlesOnce` | src/argus/event_fact_projection.py:237-348 | once a completion or failure took effect under a token nothing reported under it writes again |
| `FactStore.OvertakenWorkerWritesNothing` | src/argus/event_fact_projection.py:350-381 | a worker overtaken by a detach of its report writes no facts, however late it answers |
| `FactStore.DeadTokensStayDead` | src/argus/event_fact_projection.py:147-189 | a token without a lease never gets one back |
| `FactStore.ReconcileOneMore` | src/argus/event_fact_projection.py:265-273 | settling slots one after the other equals settling them together |
| `FactStore.FactDatabase.ClaimEventFactJob` | src/argus/event_fact_projection.py:147-210 | checks its arguments, enrols new reports, expires stale leases, then leases the longest-due job under the new token |
| `FactStore.FactDatabase.EnrolReports` | src/argus/event_fact_projection.py:156-168 | the first claim of a version records the existing reports as history; later ones give each new report without a job one |
| `FactStore.EnrolmentIsBounded` | src/argus/event_fact_projection.py:160-168 | one claim enrols at most a hundred reports, none of which has a job |
| `FactStore.FactDatabase.LongestDue` | src/argus/event_fact_projection.py:174-189 | the due job with the earliest time, then the smallest report |
| `FactStore.FactDatabase.CompleteEventFactJob` | src/argus/event_fact_projection.py:237-273 | lost lease, changed report, key collision (rolled back) or facts written with their slots settled |
| `FactStore.FactDatabase.SettleSlots` | src/argus/event_fact_projection.py:265-326 | the loop over slots computes the joint settlement |
| `FactStore.FactDatabase.FailEventFactJob` | src/argus/event_fact_projection.py:328-348 | retry with bounded delay, dead after five attempts |
| `FactEffects.FailureIsExact` | src/argus/event_fact_projection.py:328-348 | the row after a failure, dead exactly after five attempts |
| `FactEffects.DelayDoubles` | src/argus/event_fact_projection.py:341 | half a minute, doubled with each attempt, an hour at most |
| `FactEffects.LeasesAreExact` | src/argus/event_fact_projection.py:170-189 | which leases are taken back, and what a new lease is |
| `FactEffects.DueIff` | src/argus/event_fact_projection.py:174-178 | which jobs are due |
| `FactEffects.LongestWaitGoesFirst` | src/argus/event_fact_projection.py:177 | the job that waited longer goes first, of equals the smaller report |
| `FactEffects.EnrolmentIsExact` | src/argus/event_fact_projection.py:156-168 | which reports get a job |
| `FactStore.FactDatabase.DetachAutomaticFacts` | src/argus/event_fact_projection.py:350-381 | the detach transaction in full |
| `ClaimGraph.AncestorWalk` | src/argus/database.py:5589-5639 | the unguarded walk along supersedes pointers ends on every sound graph and decides reachability exactly |
| `ClaimGraph.SaveEventClaim` | src/argus/database.py:5589-5639 | each refusal, in order, leaves the graph as it was; every accepted save keeps it acyclic and within events |
| `ClaimEffects.SaveAnswer` | src/argus/database.py:5589-5622 | when a save is accepted and how it is refused, with the cycle check as a path of pointers |
| `ClaimEffects.SaveIsExact` | src/argus/database.py:5623-5639 | exactly what an accepted save writes |
| `ClaimGraph.PointerStaysSound` | src/argus/database.py:5589-5639 | a new pointer keeps the graph acyclic if and only if its target does not already lead back |
| `ClaimGraph.SoundHasNoCycle` | src/argus/database.py:5589-5639 | the ranking invariant really excludes cycles of every length |
| `ClaimGraph.RunKeepsSound` | src/argus/database.py:5589-5639 | acyclic and within one event after any sequence of claim saves, completed extractions and detaches |
| `ClaimGraph.DetachKeepsSound` | src/argus/event_fact_projection.py:369-373 | removing claims with the pointers to them keeps the rest sound |
| `ClaimGraph.PointersAreAlwaysSound` | src/argus/database.py:5589-5639 | hence in everything reached from a store without claims no claim is its own ancestor |
| `FactCorrections.CorrectionKeepsSoundIff` | src/argus/sqlite_event_corrections.py:28-107 | a correction that passes every check of the preview keeps the graph acyclic if and only if the old claim does not already lead to the new one; any other answer changes nothing |
| `ClaimEffects.CorrectionIsExact` | src/argus/sqlite_event_corrections.py:76-107 | a correction is applied exactly when it is new, fits one slot, is proved, current and its notice can be queued, and what it then writes |
| `ClaimEffects.PreviewPassesIff` | src/argus/sqlite_event_corrections.py:28-75 | what the preview lets through: two live claims, alone in one slot, and a primary proof no older than the support of the old claim |
| `FactCorrections.OrderlyRunKeepsSound` | src/argus/sqlite_event_corrections.py:28-107 | over every run of saves, extractions, detaches and corrections the graph stays acyclic while superseding saves are active and superseded claims stay superseded |
| `FactCorrections.CorrectionCanCloseACycle` | src/argus/sqlite_event_corrections.py:28-107 | a run in which every transaction is accepted and two claims end up superseding each other: extract two conflicting facts, save one as disputed with a pointer to the other, confirm the other as its correction |
| `ClaimGraph.ManualSupersedeKeepsSlotsIff` | src/argus/database.py:5589-5639 | the save of a manual claim, new or existing, refused or not, keeps the slot invariant if and only if it does not supersede one of exactly two live automatic claims; if it does, the other stays disputed alone |
| `ClaimGraph.SaveKeepsSlotsIff` | src/argus/database.py:5589-5639 | for every save, of a manual or an automatic claim: it keeps the slot invariant if and only if it is refused or the statuses it leaves in the slots it touches fit the number of claims that remain there |
| `FactCorrections.ManualClaimLeavesALoneDispute` | src/argus/database.py:5589-5639 | a run from a store without claims: two conflicting facts are extracted, a new manual claim supersedes one, and the other stays disputed alone |
| `FactCorrections.ConfirmKeepsSlots` | src/argus/sqlite_event_corrections.py:28-107 | a confirmed correction keeps every slot settled |
| `FactCorrections.SettlingRunKeepsSlots` | src/argus/sqlite_event_corrections.py:28-107 | over every run of saves, extractions, detaches and corrections the slots stay settled while each save is refused or settles the slots it touches |
| `DigestFreeze.Ancestry` | src/argus/digest.py:67-92 | the worklist ends on every graph, cyclic ones included, with the least closed set and the exact missing flag |
| `DigestFreeze.FreezeFacts` | src/argus/digest.py:54-92 | exactly the least set of claims with selected evidence closed under supersedes; truncation is set exactly when a graph limit, dropped evidence or a missing ancestor occurred |
| `FreezeLaws.FrozenIsExact` | src/argus/digest.py:54-92 | claims, evidence, truncation and refusals of a frozen item, read off the graph |
| `FreezeLaws.LastClaimCounts` | src/argus/digest.py:72 | of claims with one key the last counts |
| `DigestFreeze.LeastIsAncestry` | src/argus/digest.py:67-92 | that least set is exactly what is reached from selected claims by following pointers inside the graph |
| `DigestFreeze.LeastIsUnique` | src/argus/digest.py:67-92 | there is only one such set |
| `DigestFreeze.BoundedGraphFreezes` | src/argus/digest.py:54-64 | a graph within its read limits always meets the snapshot check |
| `DigestProtocol.FailureIsCountedOnce` | src/argus/database.py:6072-6101 | counting the same failed day twice changes nothing and raises no second alarm |
| `DigestProtocol.StreakIsExact` | src/argus/database.py:6072-6101 | one more than the day before, unchanged when counted again, else anew; the alarm once, on the third day in a row |
| `DigestProtocol.SaveKeeps` | src/argus/database.py:5772-5900 | a new draft disturbs neither the current version nor any retry |
| `DigestProtocol.PublishKeepsIff` | src/argus/database.py:5902-5925 | publishing a draft keeps one published version per key, replaces no model version and fits every retry exactly when it is a model version or replaces none, and is algorithmic beside a failed retry |
| `DigestProtocol.RequestKeeps` | src/argus/database.py:1942-1972 | an administrator may bring a retry forward at any moment without breaking a bound |
| `DigestProtocol.OpeningIsAFirstFailure` | src/argus/digest.py:1283-1291 | an opened window is what a failed attempt leaves of a retry with none made and five hours to go |
| `DigestProtocol.AfterFailureIsExact` | src/argus/digest.py:1250-1308 | a failed attempt counts one more, gives up exactly at five or at the deadline, and otherwise keeps its place in the window |
| `DigestProtocol.VisitsAreExact` | src/argus/digest.py:1151-1167 | when a retry still waits for its time, and how many calls a key has |
| `DigestProtocol.PendingWaitsOrIsOverdue` | src/argus/database.py:6022-6032 | a pending retry is overdue exactly when its deadline lies behind |
| `DigestProtocol.RequestIsExact` | src/argus/database.py:1942-1972 | on which retries a request takes effect, and what it changes |
| `DigestProtocol.DigestRepository.Publish` | src/argus/database.py:5902-5925 | supersedes the previous publication and publishes the version; one already published is left alone; nothing else changes |
| `DigestProtocol.DigestRepository.Reserve` | src/argus/database.py:4225-4246 | at most five model runs per key are ever allowed |
| `DigestProtocol.DigestRepository.ListExpired` | src/argus/database.py:6022-6032 | the up to thirty overdue pending retries that are longest overdue, ordered by deadline and key |
| `DigestProtocol.DigestScheduler.PublishDocument` | src/argus/digest.py:1474-1499 | save, publish and notify as separate transactions; after success the version is current and its notice queued |
| `DigestProtocol.DigestScheduler.StoreDocument` | src/argus/digest.py:1474-1484 | the first two of these: the new version is saved, then published |
| `DigestProtocol.DigestScheduler.Summarize` | src/argus/digest.py:1199-1242 | exactly the call reserved and the retry an administrator brings forward meanwhile; no model run without a reserved call |
| `DigestProtocol.AskedIsExact` | src/argus/digest.py:1199-1242 | asking takes a call of this key if one is left, and else touches only when retries are due |
| `DigestProtocol.DigestScheduler.FinalizeExpired` | src/argus/digest.py:1340-1357 | closes the up to thirty longest overdue retries, each as succeeded beside a published model version and as failed otherwise; none is overdue afterwards when there were no more; the streak and its last day are those of counting and ending it in that order, model versions are announced, and no day is lost unless the tick is cut |
| `DigestProtocol.DigestScheduler.CloseExpired` | src/argus/digest.py:1340-1357 | closes one overdue retry: beside a model version the row succeeds, the version is announced and the streak ends; otherwise the row fails with its attempts and the day counts |
| `DigestProtocol.DigestScheduler.FinishFailure` | src/argus/digest.py:1321-1338 | two transactions: the first settles the retry, the second counts the day; cut between them, and only then, the day is lost |
| `DigestProtocol.DigestScheduler.CountDay` | src/argus/digest.py:1333-1338 | the second transaction: the day counts exactly when it commits, and the alarm is queued exactly on the third day in a row |
| `DigestProtocol.DigestScheduler.RetryApi` | src/argus/digest.py:1250-1275 | a completed attempt with calls left pays one; with an answer the model version is published and the retry succeeded, and without one it has one attempt more: failed after the fifth or at the deadline, else due again at its place in the window |
| `DigestProtocol.DigestScheduler.Conclude` | src/argus/digest.py:1250-1275 | the part of an attempt after the model was asked |
| `DigestProtocol.DigestScheduler.RecordFailedAttempt` | src/argus/digest.py:1256-1272 | the row after an attempt without an answer |
| `DigestProtocol.DigestScheduler.PublishPolished` | src/argus/digest.py:1273-1275 | the version and the row after one with an answer |
| `DigestProtocol.DigestScheduler.EndStreak` | src/argus/digest.py:1317-1319 | the failure streak ends |
| `DigestProtocol.DigestScheduler.FirstAttempt` | src/argus/digest.py:1177-1197 | a completed attempt leaves the algorithmic version where no model is asked, the model version where it answers, and otherwise the algorithmic one with its note and a window of five hours with one attempt |
| `DigestProtocol.DigestScheduler.PublishWithWindow` | src/argus/digest.py:1177-1197 | publishes the fallback and opens its window |
| `DigestProtocol.DigestScheduler.Reconstruct` | src/argus/digest.py:1143-1155 | the retry row lost between the two is rebuilt from the time of publication, for a fallback only |
| `DigestProtocol.DigestScheduler.RevisitPending` | src/argus/digest.py:1156-1176 | a completed visit of a pending retry: succeeded beside a model version, failed after its deadline, attempted when due, unchanged while it waits; a failure counts its day and nothing else does, a success ends the streak and nothing else does |
| `DigestProtocol.DigestScheduler.Revisit` | src/argus/digest.py:1136-1176 | the same, with a lost retry row rebuilt first; a settled retry leaves versions, retries, calls and days as they are, also when a crash kept the day from being counted; the alarm of a third failed day in a row is queued again if a crash kept it back |
| `DigestProtocol.DigestScheduler.ProcessOnce` | src/argus/digest.py:1125-1197 | one tick cut off after any number of transactions keeps every bound; a completed tick leaves a current version, its notice queued, no pending retry beside a model version, a pending retry visited as above, a new digest founded, the alarm of a third failed day in a row queued and no day lost; with 160 transactions left a tick does not die, and it raises only if there is nothing to store |
| `DigestProtocol.DigestScheduler.Attend` | src/argus/digest.py:1127-1197 | the part of a tick that concerns the digest due |
| `DigestProtocol.DigestScheduler.AttendPublished` | src/argus/digest.py:1131-1176 | the same for a published one |
| `DigestProtocol.RunHistory` | src/argus/digest.py:1125-1357 | any history of ticks with crashes and administrator requests: one published version per key, no model version replaced, at most five model runs, pending retries with one to four attempts due by their deadline, a streak that counts failed days in a row, alarms only for the third of three failed days in a row, notices only of published versions, days lost only by a tick that is cut off and never counted then, and after a completed last tick its digest settled |
| `DigestProtocol.LoseADay` | src/argus/digest.py:1125-1357 | a history of the scheduler: one tick publishes the fallback, the tick after the deadline dies between marking the retry failed and counting the day, and no history of events afterwards ever counts it |
| `Outbox.SettledIsFinal` | src/argus/database.py:3381-3604 | a delivered or deleted alert is never touched again by any run of outbox operations |
| `Outbox.LeaseExcludesOthers` | src/argus/database.py:3381-3409 | until its sender reports or the lease runs out no claim takes the alert |
| `AlertEffects.OperationsAreExact` | src/argus/database.py:3381-3604 | each outbox operation acts on its one row, in exactly the states named |
| `AlertEffects.SentFirst` | src/argus/database.py:3385-3393 | the order of sending |
| `Outbox.AlertTable.ClaimDueAlert` | src/argus/database.py:3381-3437 | claims the claimable alert of highest priority, then age, then id |
| `Outbox.AlertTable.MarkDeliveryFailure` | src/argus/database.py:3492-3533 | pending again only if retryable, young enough and not exhausted; a row not being sent is left alone |
| `Outbox.AlertTable.MarkRetry` | src/argus/database.py:3479-3490 | a row being sent waits for another attempt; any other is left alone |
| `Outbox.AlertTable.RetryAlert` | src/argus/database.py:3573-3584 | revives exactly dead or cancelled alerts |
| `Outbox.AlertTable.CancelAlert` | src/argus/database.py:3586-3597 | cancels exactly pending alerts |
| `Outbox.AlertTable.DiscardAlert` | src/argus/database.py:3599-3605 | deletes exactly dead or cancelled alerts |
| `AlertSuppression.InsertKeeps` | src/argus/database.py:2544-2630 | inserting a candidate keeps all three suppression rules |
| `AlertEffects.InsertionIsExact` | src/argus/database.py:2544-2630 | which candidates become alerts, and the row they become; what keeps one out in each class, with its window |
| `AlertSuppression.OpKeeps` | src/argus/database.py:3381-3604 | so does every outbox operation except an operator retry |
| `AlertSuppression.RunKeepsInvariant` | src/argus/database.py:2544-2630 | over every run in which operators revive only alerts that still fit: live weather alerts of an incident and topic rise strictly in priority, news alerts do within six hours, other rules keep half an hour apart; no assumption on the clock is needed |
| `AlertSuppression.AtMostFiveWeatherAlerts` | src/argus/database.py:2573-2592 | hence at most five live weather alerts per incident and topic |
| `AlertSuppression.WarningIsCovered` | src/argus/database.py:2573-2630 | suppression hides no escalation: for each handled weather candidate a live alert of at least its priority exists, or its key belongs to an earlier alert |
| `AlertSuppression.RevivalKeepsRulesIff` | src/argus/database.py:3573-3584 | an operator retry keeps all suppression rules if and only if the alert still fits between the live ones: above every earlier and below every later one of its weather story, or of its news story within six hours |
| `AlertSuppression.RevivalCanRepeatAnAlert` | src/argus/database.py:3573-3584 | a run, for weather and for news, in which it does not and two live alerts of one story have the same priority |
| `AlertSuppression.AlertDatabase.HighestPriority` | src/argus/database.py:2566-2592 | the maximum query, with the empty case |
| `AlertSuppression.AlertDatabase.InsertCandidate` | src/argus/database.py:2544-2630 | inserts exactly the candidates with an open route, not suppressed and with a new key |
| `Reminders.FiresAnew` | src/argus/database.py:3255-3290 | a due reminder never meets an existing occurrence |
| `ReminderEffects.FiringIsExact` | src/argus/database.py:3255-3331 | what firing a due reminder writes |
| `ReminderEffects.RepeatingIsExact` | src/argus/database.py:3332-3375 | what a due repeat writes, below the maximum and at it |
| `ReminderEffects.PassTakesLongestDue` | src/argus/database.py:3247-3254 | a pass takes the longest due reminders up to its limit and passes one over only for those ahead of it |
| `ReminderEffects.PassTakesLongestWaitingRepeats` | src/argus/database.py:3332-3342 | the same for repeats |
| `ReminderEffects.PassIsExact` | src/argus/database.py:3243-3379 | a pass fires all it takes, then uses up all repeats it takes, and leaves the others |
| `Reminders.StepKeepsInvariant` | src/argus/database.py:3003-3476 | every edit, pass, delivery, acknowledgement and outbox operation keeps the chain invariant |
| `Reminders.RunKeepsInvariant` | src/argus/database.py:3003-3604 | and so does every run |
| `Reminders.ChainIsSingle` | src/argus/database.py:3188-3476 | in every reachable state an open occurrence has at most one of: an undelivered alert, a scheduled repeat |
| `Reminders.TotalIsBounded` | src/argus/database.py:3243-3379 | an occurrence never has more alerts in its whole history than its repeats and one, and an open one no more than the maximum of its reminder and one |
| `Reminders.AcknowledgedIsFinal` | src/argus/database.py:3188-3222 | after acknowledgement nothing is ever enqueued for the occurrence, also when a message was in flight |
| `Reminders.EditsSilence` | src/argus/database.py:3003-3186 | editing, disabling or deleting a reminder withdraws its pending alerts, and nothing started before is enqueued afterwards |
| `ReminderEffects.UpsertIsExact` | src/argus/database.py:3003-3096 | what saving a reminder writes |
| `ReminderEffects.SwitchingIsExact` | src/argus/database.py:3098-3154 | when a reminder can be switched, and what that writes |
| `ReminderEffects.DeletionIsExact` | src/argus/database.py:3156-3186 | what deleting one leaves |
| `ReminderEffects.AcknowledgementIsExact` | src/argus/database.py:3188-3222 | what an acknowledgement changes, once |
| `ReminderEffects.DeliveryIsExact` | src/argus/database.py:3439-3476 | when a delivery schedules a repeat, and for when |
| `Reminders.ReminderDatabase.EnqueueDueReminders` | src/argus/database.py:3243-3379 | the two loops compute the specified pass and count exactly the alerts inserted |
| `Reminders.ReminderDatabase.UpsertReminder` | src/argus/database.py:3003-3096 | creates or replaces, silencing the old one |
| `Reminders.ReminderDatabase.SetReminderEnabled` | src/argus/database.py:3098-3154 | the two refusals and the new schedule |
| `Reminders.ReminderDatabase.DeleteReminder` | src/argus/database.py:3156-3186 | deletes, silences, and unlinks the alerts |
| `Reminders.ReminderDatabase.AcknowledgeOccurrence` | src/argus/database.py:3188-3222 | acknowledges once and withdraws the pending alerts of the occurrence |
| `Reminders.ReminderDatabase.MarkAlertDelivered` | src/argus/database.py:3439-3476 | schedules a repeat exactly when the occurrence is open, acknowledgement is on and the maximum is not reached |
| `ManagedConfig.ValidationIsExact` | src/argus/admin.py:220-261 | counting identifiers accepts exactly the payloads with unique identifiers, apart from the base and from each other, and without dangling rule sources |
| `ManagedConfig.CountingIdentifiers` | src/argus/admin.py:252-257 | the union is as large as the sum exactly for distinct identifiers disjoint from the base |
| `ManagedConfig.UpsertsReplace` | src/argus/admin.py:360-447 | an accepted upsert, alone or as a bundle, replaces exactly the rows it names, keeps every other row and section, and a bundled rule names its source |
| `ConfigEdits.EditIsAcceptedIff` | src/argus/admin.py:360-517 | of a valid configuration exactly the acceptable edits are accepted: rows that parse and do not shadow the base, rules over sources there are, deletions of what exists and is not needed |
| `ConfigEdits.OtherEditsAreExact` | src/argus/admin.py:265-358 | what deletions, sections and restores leave |
| `ConfigEdits.NothingToDelete` | src/argus/admin.py:451-517 | when an edit has no effect |
| `ManagedConfig.BundleDeletionIsValid` | src/argus/admin.py:451-488 | removing a bundle from a valid payload is never refused |
| `ManagedConfig.BundleIsGone` | src/argus/admin.py:465-480 | and leaves neither the source nor a rule naming it |
| `ManagedConfig.PlainDeletionIsValid` | src/argus/admin.py:490-517 | deleting an unreferenced source, or a rule, from a valid payload always validates |
| `ManagedConfig.SaveKeepsOrder` | src/argus/database.py:6294-6344 | a commit succeeds exactly when the expected revision is the active one; numbers stay gapless and the newest alone active |
| `ConfigEdits.CommitIsExact` | src/argus/database.py:6294-6344 | a commit keeps older payloads under their numbers |
| `ConfigEdits.PreparationIsExact` | src/argus/admin.py:265-358 | the draft of an edit and the revision it expects |
| `ManagedConfig.RunKeepsInvariant` | src/argus/admin.py:290-517 | over every interleaving each committed payload is the outcome of its edit on the payload before it |
| `ManagedConfig.EditsSerialise` | src/argus/admin.py:290-517 | for any interleaving of editors the active payload equals the committed edits applied in revision order, exactly one revision is active and it is the maximum, every committed payload is valid |
| `ManagedConfig.UnseenRevisionLosesAnUpdate` | src/argus/admin.py:283-288 | for every expected revision that does not exist at the snapshot, every state of the invariant, every valid policy and every new source there is a run in which each commit succeeds and the last one removes the source that another editor added |
| `ManagedConfig.UnseenRevisionOverwrites` | src/argus/admin.py:283-288 | whatever others commit until such a number is reached, the waiting edit then replaces it with what the edit made of its old snapshot |
| `ManagedConfig.ConfigRevisions.SaveManagedConfig` | src/argus/database.py:6294-6344 | the transaction with its conflict answer |
| `ManagedConfig.ManagedConfigStore.PrepareEdit` | src/argus/admin.py:290-517 | snapshot, edit and validation; the draft expects the revision of its snapshot unless told otherwise |
| `ManagedConfig.ManagedConfigStore.Apply` | src/argus/admin.py:290-517 | an undisturbed edit never conflicts and commits exactly its outcome |
| `DigestSelection.RootCeiling` | src/argus/digest.py:437 | the least number whose square reaches its argument |
| `SelectionLaws.CountIsExact` | src/argus/digest.py:409-439 | the count from the energy, the strong topics, the immediate clusters and the ceiling |
| `SelectionLaws.SignalIsExact` | src/argus/digest.py:428-431 | what one cluster adds to the energy |
| `SelectionLaws.EnergyIsSum` | src/argus/digest.py:428-431 | the energy is the sum |
| `SelectionLaws.TopicsAreExact` | src/argus/digest.py:432-435 | which topics count |
| `SelectionLaws.ImmediatesAreCounted` | src/argus/digest.py:437 | the number of immediate clusters |
| `DigestSelection.CountIsBounded` | src/argus/digest.py:409-439 | at most the ceiling and the clusters available, at least one, and never below the immediate clusters that fit under the ceiling |
| `DigestSelection.CountIsMonotone` | src/argus/digest.py:409-439 | adding clusters, anywhere and in any order, never lowers the count |
| `DigestSelection.SelectionIgnoresOrder` | src/argus/digest.py:547-562 | the greedy choice does not depend on the order of clusters with distinct keys |
| `DigestSelection.EachChoiceIsBest` | src/argus/digest.py:547-562 | each chosen cluster precedes everything not chosen before it: class, then score over one plus 0.35 times the least use of its sources among exactly the earlier choices, then recency, then key |
| `SelectionLaws.ChoiceIsExact` | src/argus/digest.py:547-562 | the same in scores, uses, times and keys alone |
| `SelectionLaws.DigestSizes` | src/argus/digest.py:547-562 | how many clusters each digest has |
| `DigestSelection.SelectionIsPart` | src/argus/digest.py:547-562 | nothing is invented or chosen twice, and the limit is used up |
| `DigestSelection.ClassesFillUp` | src/argus/digest.py:881-905 | of the included and immediate clusters as many are taken as fit: a lower class is never passed over for a higher one |
| `DigestSelection.ClassesAreOrdered` | src/argus/digest.py:884-899 | included clusters stand in front, immediate ones in front within each |
| `DigestSelection.ImmediatesAreKeptIff` | src/argus/digest.py:881-905 | every immediate cluster is kept if and only if included and immediate ones together fit, or none but included ones are immediate and those fit |
| `DigestSelection.FreshDigestKeepsImmediatesIff` | src/argus/digest.py:547-562 | without editorial choices every immediate cluster is kept if and only if they fit under the ceiling |
| `DigestSelection.PoolRespectsEditors` | src/argus/digest.py:866-905 | the pool variant selects no excluded event, puts included ones first and passes none of them over |
| `DigestSelection.PoolCanDropAnImmediateEvent` | src/argus/digest.py:881-905 | two events below the noise floor, one included and one immediate: the immediate one is dropped under every ceiling |
| `DigestSelection.CountItems` | src/argus/digest.py:409-439 | the count computed in one pass |
| `DigestSelection.PickClusters` | src/argus/digest.py:547-562 | the loop that sorts, pops and counts sources computes the specified choice |
| `DigestSelection.SelectFromPool` | src/argus/digest.py:866-905 | filter, count and choice together |

## Left out

- EventPaging.CursorsReadTheRanking: keeps observation ratings and alert statuses fixed between pages, as the source itself declares them live.
- EventPool.PoolEventsAreOneDecision: asks of saves from stale matches that they do not clash, the exact condition under which they are harmless.
- Reminders.TotalIsBounded: counts rows without retention cleanup, which deletes the history it speaks of.
- AlertSuppression.RunKeepsInvariant: asks operators to revive only alerts that still fit, the exact condition under which a retry is harmless.
- ManagedConfig.EditsSerialise: asks of an explicit expected revision that it existed at the snapshot, shown to be needed for every other number.
- ManagedConfig.ManagedConfigStore.Apply: describes an undisturbed editor; interleavings are the subject of the session lemmas.
- ClaimGraph.SaveEventClaim: works on values; rows of one table are updated in place in the source.
- EventStore.EventDatabase.SaveEventProjection: one score and one set of topics stand for all numbers and sets of an event; title, summary and lifecycle status are left out.
- Clustering.ClusterEvents: leaves titles, summaries, regions, relation labels and the textual identity of an event to a parameter.
- Regular expressions, number and text normalisation, Unicode handling and the title comparison.
- Float rounding, rounded scores, JSON text and the base64url text of cursors (section 5 of RFC 4648); the decoded cursor is modelled.
- Event aliases, manual merge, split and repair, timeline rows, reports shown per page and candidate limits of the pool.
- Content documents and their availability, administration of content jobs, and Unicode digits in failure kinds.
- FactCorrections.OrderlyRunKeepsSound: asks of claim saves that those with a pointer are active and that superseded claims stay so; without that a cycle can form.
- The text, audit row and notice of a fact correction, and manual review apart from the evidence it adds.
- Schema migrations, locks, write-ahead logging, journal rows of digest attempts and administrator job rows.
- Routing and its revisions beyond an open or muted topic, incident rows and the evidence they collect.
- Secrets, file history and materialisation of the managed configuration, and the redaction on rollback to the active revision.
- Retention cleanup, source coverage labels, run states and other single-branch facts.
- HTTP handlers, authentication, collectors, document fetching, model calls, weather, backups, scripts and the frontend.

# Verified model of the PR-review pipeline

The pipeline reviews pull requests with four specialist agents, joins their
findings, decides whether to post them or to ask a human, and keeps an index of
each repository's code for grounding. Its hard parts are protocols over a few
small tables. This project models them in Dafny and proves what they keep:
over every interleaving, every crash, every retry and every input.

`dafny verify dfyconfig.toml` checks everything.

## Layout

| files | part of the system |
|---|---|
| Basics, StableSort | vocabulary; the built-in stable sort |
| Findings, Dedup, DedupOrder, Render | finding contract, deduplication and its dependence on order, gate, review body |
| FindingRecords, ReviewTables, Pipeline | the stores as tables and objects; `run_review`, `aggregate`, `approve`, `reject` |
| ReviewProtocol | the same steps as a state machine, with crashes and concurrent humans |
| Fanout, RedisKeys, Checkpointer, Engine, Resume | the join, the Redis checkpointer, crash and resume, what a resumed run writes |
| Chunker, RepoTree, RepoIndex, Indexer | chunking, the incremental index, index jobs |
| Scorer | greedy scoring of golden cases |
| Ingress, Webhook | dedup claim and rollback: all interleavings, and the endpoint itself |
| Breakers, Retry, Guards | circuit breakers, retries, guarded calls |
| Budget | daily budget and one agent run |
| Fusion | reciprocal rank fusion |

Code that changes fields or loops is an object or a method with a loop, proved
equal to a specification function; the theorems are about that function. Where
actors interleave, each store or GitHub call is one atomic event of a state
machine, an event that is not possible changes nothing, and a run is any
sequence of events. `Pipeline.JobRefinesProtocol`, `ApproveRefinesProtocol` and
`RejectRefinesProtocol`, `Webhook.JobQueue.ReceiveWebhook`,
`Budget.RunRefinesMachine` and `Engine.ResumeReadsRedis` connect the objects to
the machines.

## Main results

- A review is posted at most 1 + (crashes in an open window) times, the bound is
  tight, and a reject that claimed is final without such a crash. Without one, a
  review is lost for good exactly when an approval dies between its claim and its
  post.
- An incremental index equals a full one if and only if no file goes silent, and
  along any chain of pushes; after any history of jobs the status row says what the
  repository's last job did.
- The string-keyed Redis checkpointer implements a simple store over every
  history, and reading it gives the last completed put; a stored specialist never
  runs again; the aggregate after any crashes is the four stored outputs one after
  the other, and no completion order matters. What a resume reads from Redis is what
  the engine's theorems assume.
- Deduplication, gate and body: exact characterisations in terms of the raw
  findings: winners, notes, order, score, decision, the event that is posted and the
  reason that is queued; the body reads back as the deduplicated list.
- Written findings read back as a permutation (to three decimals) if and only if
  none collide on the index. A human is sure to approve the gate's body line for line
  if and only if, besides, no severity has two findings and nothing is rounded.
- What a row says of a posted review is characterised for every run, and sharply for
  runs without a worker crash in an open window.
- A delivery id is claimed only for a reason; an operation of a delivery is
  enqueued at most once exactly when it is the delivery's last.
- A dead dependency is called at most attempts * (threshold + T / reset) times;
  the budget is overshot by less than one call an agent; greedy scoring is half
  optimal; agreement beats rank exactly up to k = 61.

## Where the code and its documentation differ

The model follows the code.

- `README.md` lines 70 and 104 of the repository say any CRITICAL finding
  escalates. A CRITICAL finding that is less confident than another one on the
  same (file, line) is dropped before the gate: `Dedup.CriticalCanBeDropped`;
  the exact condition is `Dedup.EscalatesIffCriticalIsFirstBest`.
- Lines 75-76, and `backend/integrations/truth_store.py` lines 157-160, say approve
  posts the exact review that would have auto-posted. It can differ in three ways: a
  finding on line -1 is lost (`FindingRecords.ApproveCanLoseFinding`, exactly when:
  `ApproveBodyMatchesGateBodyIff`), findings under one heading change places
  (`ApproveCanReorder`), a confidence is rounded to three decimals
  (`ApproveCanRound`). It is exact in every case exactly when:
  `FindingRecords.ApproveIsExactIff`.
- `backend/hitl/queue.py` lines 84-89 and `backend/api/hitl.py` treat the claim as an
  idempotency guard. A claim is not given back when the post fails, so the review is
  never posted and cannot be approved or rejected again:
  `ReviewProtocol.ReviewCanBeLost`, exactly when: `ReviewProtocol.LostIffAbandoned`.
- `backend/ingestion/indexer.py` lines 13-15 say changed files are chunked again
  and the rows of removed files deleted; a still-present file that stops yielding
  chunks is neither, and keeps its old rows:
  `RepoIndex.FileCanGoSilent`, `RepoIndex.IncrementalAgreesIff`.
- A posted review can stay unrecorded for good: an approval that dies between its post
  and its mark leaves a row that nothing can claim again
  (`ReviewProtocol.PostCanGoUnrecorded`, `UnrecordedForGood`). And `set_status` can
  overwrite `posted` (`SetStatusCanHidePost`). What the row says, exactly:
  `ReviewProtocol.PostedIsOnRecordIff`, and for every run `RecordIff`.
- A repeated delivery is answered "already processed" although its claim holder may
  still fail: `Ingress.DuplicateCanBePremature`, true exactly when:
  `Ingress.DuplicateIsTrueIff`.
- `mark_seen` is documented as idempotency for repeated deliveries; all operations
  of an installation event but the last can still be enqueued twice:
  `Ingress.QueuedOnceIffLast`, `Webhook.RedeliveredInstallation`.
- The breakers' comments speak of one probe after the cooldown. `before_call`
  keeps no trace of calls it lets through, so every call that starts between the
  end of the cooldown and the next reported outcome is let through
  (`Breakers.TwoProbes`); the bounds of `Guards.CallDeadDependency` and its two
  companions are for calls made one after another.
- `BudgetGuard` is only consulted where one is injected; the worker's start-up
  does not inject one, so the budget theorems are about guarded agents.

## Assumptions

- At most one worker handles a delivery at a time (`upsert_review` takes no row
  lock), and one index job a repository.
- A store, Redis or GitHub call is atomic, and one that raises had no effect.
- Pushes arrive in order, and GitHub's per-commit lists are true deltas.
- LangGraph skips a node on resume exactly when the node's writes are pending; the
  ids it writes under are stable across resumes (the agent's name stands for the id).
- Dedup keys do not expire during the runs considered, and webhook handlers do
  not crash between claim and rollback.

## Model

| member | source | states |
|---|---|---|
| Findings.FindingLePreorder | backend/orchestrator/nodes.py:102 | The sort key (severity rank, file, line or 0) is a total preorder on findings, string order on file names included, so "sorted" has one meaning. |
| Findings.StringLeIs | backend/orchestrator/nodes.py:102 | File names compare as Python strings do: a prefix, or the smaller code point at the first difference. |
| StableSort.SortIsStable | backend/orchestrator/nodes.py:102 | The sort is stable: the result is ordered, a permutation, and keeps the order of ties, for every total preorder. |
| StableSort.StableSortUnique | backend/orchestrator/nodes.py:102 | A stable sort has exactly one result, so what is proved about this one holds of `list.sort`. |
| Dedup.DedupFindings | backend/orchestrator/nodes.py:82-103 | The dictionary-and-sort algorithm computes the specification function for every list of findings. |
| Dedup.WinnerIsFirstBest | backend/orchestrator/nodes.py:93 | `max` over a group picks the earliest finding of greatest confidence on that spot of the whole list. |
| Dedup.SurvivorOfGroup | backend/orchestrator/nodes.py:94-98 | The survivor is the winner with a note naming exactly the other agents of the group, in alphabetical order; nothing else about it changes. |
| Dedup.OtherAgentsAscend | backend/orchestrator/nodes.py:95 | The named agents are exactly those asked for, strictly ascending. |
| Dedup.DedupOnePerSpot | backend/orchestrator/nodes.py:87-103 | One output finding for each distinct (file, line) of the input and no others. |
| Dedup.DedupKeepsFirstBest | backend/orchestrator/nodes.py:92-99 | Every output finding is the earliest most confident finding of its spot plus the note about the other agents. |
| Dedup.FirstBestSurvives | backend/orchestrator/nodes.py:92-99 | Conversely, every earliest most confident finding of a spot survives with its severity and confidence. |
| Dedup.DedupStablySorted | backend/orchestrator/nodes.py:101-103 | The output is the stable sort by (severity, file, line or 0) of the survivors in order of first appearance. |
| Dedup.DedupIdempotent | backend/orchestrator/nodes.py:82-103 | Deduplicating twice is deduplicating once; no note is added a second time. |
| Dedup.DedupEmptyIff | backend/orchestrator/nodes.py:82-103 | The deduplicated list is empty exactly when the input is. |
| Dedup.OutputOrder | backend/orchestrator/nodes.py:102 | The listing spelled out: CRITICAL before HIGH before MEDIUM before LOW before INFO, then file names ascending, then lines ascending with no line as 0. |
| Dedup.TiesKeepFirstAppearance | backend/orchestrator/nodes.py:87-103 | Findings that tie in severity, file and line stand in the order in which their spots were first flagged in the raw list. |
| Dedup.NoteNamesOthers | backend/orchestrator/nodes.py:94-98 | A finding nobody else flagged is unchanged; otherwise its rationale ends in one sentence from which exactly the other agents' names can be read off, ascending. |
| Dedup.MeanOfFew | backend/orchestrator/nodes.py:106-111 | The score of nothing is 1.0, that of one finding its confidence. |
| Dedup.MeanPermutes | backend/orchestrator/nodes.py:106-111 | The score does not depend on order. |
| Dedup.MeanAppends | backend/orchestrator/nodes.py:106-111 | Scores of two lists combine weighted by length; with the two laws above this determines the mean. |
| Dedup.EscalatesIffCriticalIsFirstBest | backend/orchestrator/nodes.py:114-121 | The gate escalates if and only if some finding of the raw list is CRITICAL and the first best of its (file, line). |
| Dedup.PostsIffConfidentAndNotCritical | backend/orchestrator/nodes.py:114-124 | The gate auto-posts if and only if no first best finding is CRITICAL and the mean confidence of the survivors reaches the threshold. |
| Dedup.MeanWithin | backend/orchestrator/nodes.py:106-111 | The score of a non-empty review lies between its least and greatest confidence. |
| Dedup.CriticalCanBeDropped | backend/orchestrator/nodes.py:82-124 | The promise that any CRITICAL finding escalates is false of the code: a concrete two-finding input with a CRITICAL one auto-posts. |
| Render.RenderReviewBody | backend/orchestrator/nodes.py:127-145 | The nested loops produce the specified lines for every list of findings. |
| Render.RenderSections | backend/orchestrator/nodes.py:132-144 | The loop over severities skips empty buckets and writes one section for each of the others. |
| Render.RenderItems | backend/orchestrator/nodes.py:137-143 | One item line a finding, followed by its quoted rationale lines. |
| Render.CollectBucket | backend/orchestrator/nodes.py:133 | The comprehension keeps the findings of one severity in order. |
| Render.BucketsAreStableSort | backend/orchestrator/nodes.py:132-133 | The severity buckets one after the other are the stable sort of the list by severity. |
| Render.BodyListsEveryFinding | backend/orchestrator/nodes.py:127-145 | Reading the body back gives every finding exactly once, under the heading of its own severity, worst first; the headings are exactly the severities that occur. |
| Render.BodyQuotesEveryRationale | backend/orchestrator/nodes.py:142-143 | The quotes after each listed finding are exactly the lines of its own rationale, agreement note included. |
| Render.BodyKeepsDedupOrder | backend/orchestrator/nodes.py:127-145 | For a deduplicated list, reading the body back gives that list in its own order: nothing is lost, repeated or moved. |
| Render.BodyShape | backend/orchestrator/nodes.py:127-145 | The one-line body exactly for no findings; otherwise banner first, a blank line before every heading and at the end and nowhere else, items only under headings, quotes only under items. |
| FindingRecords.RetriedWriteIsOneWrite | backend/integrations/truth_store.py:124-140 | Any sequence of partial writes followed by a full write leaves the table exactly as the full write alone. |
| FindingRecords.InsertPresent | backend/integrations/truth_store.py:124-140 | Writing findings whose keys are present changes nothing. |
| FindingRecords.StoredAreWritten | backend/integrations/truth_store.py:157-203 | For a fresh review the stored findings are the written ones to three decimals if no two collide on the unique index, and strictly fewer otherwise. |
| FindingRecords.RoundsToNearest | scripts/migrations/2026-06-tiger-init.sql:145 | A stored confidence is the nearest multiple of 0.001. |
| FindingRecords.ReadBackIsPermutationIffNoCollision | backend/integrations/truth_store.py:157-203 | After any retries, what is read back is a permutation of what was written (to three decimals) if and only if no two findings collide on the index. |
| FindingRecords.DedupCollidesOnlyOnLineMinusOne | scripts/migrations/2026-06-tiger-init.sql:153-154 | A deduplicated list collides on the index if and only if it holds a finding without a line and one on line -1 that agree on the other key columns. |
| FindingRecords.BodyItemsUnder | backend/orchestrator/nodes.py:132-144 | Under each heading the body shows exactly the findings of that severity in the order given. |
| FindingRecords.ApproveIsExactIff | backend/api/hitl.py:103-113 | A human is sure to approve, line for line, the body the gate saw, whatever order the rows come back in, if and only if no look-alike pair is lost to the index, no severity has two findings, and no confidence has more than three decimals. |
| FindingRecords.ApproveCanReorder | backend/integrations/truth_store.py:172-183 | The order part fails alone: two findings of one severity. |
| FindingRecords.ApproveCanRound | backend/integrations/truth_store.py:124-140 | The rounding part fails alone: a confidence with four decimals. |
| FindingRecords.ApproveBodyMatchesGateBodyIff | backend/api/hitl.py:103-113 | Up to rounding and the order under a heading, the two bodies show the same findings under the same headings if and only if the deduplicated list has no look-alike pair without a line and on line -1. |
| FindingRecords.ApproveCanLoseFinding | scripts/migrations/2026-06-tiger-init.sql:153-154 | The loss: one agent, file and category, once without a line and once on line -1. |
| Fanout.MergeResults | backend/orchestrator/graph.py:83-87 | The aggregate node joins the results by agent name in the fixed order, last result of an agent wins. |
| Fanout.ByAgentPermutes | backend/orchestrator/graph.py:84-87 | With one result an agent, what is found for an agent does not depend on the order of the results. |
| Fanout.MergedIs | backend/orchestrator/graph.py:83-87 | The joined list is what security, quality, tests and docs said last, one after the other, each in its own order; nothing for an agent without a result. |
| Fanout.EveryFindingMergedOnce | backend/orchestrator/graph.py:83-87 | With one result an agent, the joined list holds every finding of every result exactly as often as the results do. |
| Fanout.NothingMerged | backend/orchestrator/graph.py:83-87 | It is empty exactly when no result has a finding. |
| Fanout.CriticalEscalates | backend/orchestrator/nodes.py:82-121 | A CRITICAL finding of any specialist that nothing on its spot equals or tops escalates the review. |
| Fanout.ScheduleIndependent | backend/orchestrator/graph.py:83-87 | Every completion order of the specialists gives the same merged list, deduplicated list and decision. |
| Fanout.DedupAloneIsOrderSensitive | backend/orchestrator/nodes.py:82-103 | Deduplication alone is not order independent: two orders of the same findings give different results. |
| DedupOrder.OrderFreeIff | backend/orchestrator/nodes.py:82-103 | Deduplication gives one result for every order of a list if and only if, on the input, no spot has two different most confident findings, and no two most confident findings of one severity and file have no line and line 0. |
| DedupOrder.OrderFreeIffSurvivors | backend/orchestrator/nodes.py:82-103 | The same in terms of the output: no two survivors share their sort key. |
| DedupOrder.SurvivorsTieIffZeroTie | backend/orchestrator/nodes.py:91-102 | The two forms of the second condition agree. |
| DedupOrder.NoTiesNoDependence | backend/orchestrator/nodes.py:82-103 | Without such ties every permutation of the findings gives the same list. |
| DedupOrder.TiedSurvivors | backend/orchestrator/nodes.py:102 | Two survivors share their sort key exactly when severity and file agree and one has no line and the other line 0. |
| DedupOrder.DedupMembers | backend/orchestrator/nodes.py:91-99 | The output holds exactly the survivors of the groups. |
| ReviewProtocol.InvRun | backend/orchestrator/nodes.py:167-225 | The protocol invariant holds after every sequence of worker steps, crashes, redeliveries and approve/reject handlers. |
| ReviewProtocol.PostsAreBounded | backend/orchestrator/nodes.py:171-225 | In every interleaving posts + rejects + abandoned claims + claims in flight are at most 1 + the number of crashes between post and `mark_posted` or between `enqueue` and `set_status`. |
| ReviewProtocol.LapsesAreCounted | backend/orchestrator/nodes.py:207-224 | The crashes in that bound are exactly the worker crashes between a post and its mark or between a queued row and its status. |
| ReviewProtocol.ExactlyOneOutcome | backend/orchestrator/nodes.py:171-225 | Without such a crash there is at every moment exactly one of: a post, a reject, an approval under way or abandoned, a row waiting for a human, a worker that is still to post or enqueue or, for a pending review, may yet be started to do so. |
| ReviewProtocol.KeptUnlessAbandoned | backend/orchestrator/nodes.py:202-225 | Once the status has left `pending` and no approval died between claim and post, the review was posted or rejected, or waits for a human, or a human has claimed it. |
| ReviewProtocol.LostNeedsAbandoned | backend/api/hitl.py:98-113 | In every run, whatever crashes, a lost review (not posted, not rejected, nothing waiting, nobody at work) had an approval that died between its claim and its post. |
| ReviewProtocol.LostIffAbandoned | backend/api/hitl.py:98-113 | Without a crash in an open window this is an equivalence. |
| ReviewProtocol.AbandonedStaysLost | backend/hitl/queue.py:90-100 | A review lost in this way stays lost in every continuation: every later approve or reject finds nothing to claim. |
| ReviewProtocol.ReviewCanBeLost | backend/api/hitl.py:98-113 | The loss happens: a queued review whose approval fails before the post. |
| ReviewProtocol.RejectIsFinal | backend/api/hitl.py:121-127 | After a reject that claimed, and with no crash in an open window, the review is never posted, before or after. |
| ReviewProtocol.BoundIsReached | backend/orchestrator/nodes.py:202-213 | The bound is tight: for every n some run with n crashes between post and mark posts n + 1 times. |
| ReviewProtocol.PostedIsOnRecordIff | backend/api/hitl.py:108-118 | In a run without a worker crash in an open window, once nobody is between post and mark, a posted review has its GitHub id on the row if and only if no approval died between post and mark, and its status reads `posted` if and only if, besides, no human mark fell between `enqueue` and `set_status` or the worker is still there. |
| ReviewProtocol.RecordIff | backend/orchestrator/nodes.py:207-225 | In every run, whatever crashes: the GitHub id is on the row if and only if some `mark_posted` ran, and the status reads `posted` if and only if one ran that no later `set_status` overwrote. |
| ReviewProtocol.UnrecordedForGood | backend/api/hitl.py:108-118 | A post whose handler died before its mark stays unrecorded in every continuation. |
| ReviewProtocol.PostCanGoUnrecorded | backend/api/hitl.py:108-118 | It happens: a human approves, the handler posts and dies; the row keeps `needs_human` and no GitHub id. |
| ReviewProtocol.SetStatusCanHidePost | backend/orchestrator/nodes.py:223-224 | That overwrite happens: a human approves between `enqueue` and `set_status`, and the posted review ends up as `needs_human`. |
| ReviewTables.TruthStore.UpsertReview | backend/integrations/truth_store.py:85-104 | Get or create by delivery id; on conflict only the PR number changes, and a new review has no findings. |
| ReviewTables.TruthStore.InsertFindings | backend/integrations/truth_store.py:106-140 | Row-by-row conflict-do-nothing insert equals the specified table. |
| ReviewTables.TruthStore.MarkPosted | backend/integrations/truth_store.py:142-155 | Sets status, GitHub id and confidence (to three decimals) of that row and nothing else. |
| ReviewTables.TruthStore.SetStatus | backend/integrations/truth_store.py:205-218 | Overwrites status and confidence (to three decimals) of that row unconditionally. |
| ReviewTables.TruthStore.GetReviewWithFindings | backend/integrations/truth_store.py:157-203 | None exactly when the row is missing, else the stored findings in some order. |
| ReviewTables.HitlQueue.Enqueue | backend/hitl/queue.py:42-53 | Adds one waiting row for its review and changes no other review. |
| ReviewTables.HitlQueue.Resolve | backend/hitl/queue.py:84-101 | Claims if and only if some row of the review waits; resolves all of them at once and leaves every other row alone. |
| ReviewTables.ResolveAllViews | backend/hitl/queue.py:90-100 | The update acts on each review separately: its rows stop waiting, those of other reviews are unchanged. |
| ReviewTables.ResolveAllAt | backend/hitl/queue.py:90-100 | Row by row: a waiting row of the review gets the status and the note and keeps its reason, every other row is unchanged. |
| ReviewTables.GitHub.PostReview | backend/orchestrator/nodes.py:204-209 | Appends one posting and returns its id. |
| Pipeline.Aggregate | backend/orchestrator/nodes.py:151-225 | One undisturbed call has the job effect on all four stores; a review that has left `pending` is answered from its status without any effect. A posting is APPROVE if and only if nothing was found; the status afterwards names the decision; the returned ids are those of the posting or the row. |
| Pipeline.PostNow | backend/orchestrator/nodes.py:202-213 | The auto-post branch: body posted, APPROVE if and only if the deduplicated list is empty, then the row marked. |
| Pipeline.QueueForHuman | backend/orchestrator/nodes.py:215-225 | The human branch: a waiting row with its reason, then the status. |
| Pipeline.RunReview | backend/job_queue/arq_worker.py:85-124 | A redelivered job of a decided review is replayed without effect; otherwise the stores change as by `aggregate` on the joined results: a posting is APPROVE if and only if no specialist found anything, and an unbeaten CRITICAL finding of any specialist escalates. |
| Pipeline.JobRefinesProtocol | backend/orchestrator/nodes.py:151-225 | What the imperative job leaves in the stores is what the protocol machine's run of the same steps leaves. |
| Pipeline.JobSays | backend/orchestrator/nodes.py:203 | A job posts at most one review, APPROVE exactly when nothing was found, and leaves the status that names its decision. |
| Pipeline.QueuedJobSays | backend/orchestrator/nodes.py:215-224 | The queued row gives as its reason the titles of all CRITICAL findings in body order, or else the score and the threshold it misses. |
| Pipeline.RedeliveredReview | backend/orchestrator/nodes.py:172-190 | Running a job twice for one delivery posts or queues at most once and answers the same decision, whatever the second run finds. |
| Pipeline.Approve | backend/api/hitl.py:95-119 | 409 exactly when nothing waits, and then nothing changes; otherwise the claim with its note, one post with the stored findings, APPROVE if and only if none is stored, and the mark with the score on the row or 0; no other review is touched. |
| Pipeline.PostApproved | backend/api/hitl.py:102-119 | The claimed part: read, post, mark; 404 spends the claim, posts nothing and leaves the records. |
| Pipeline.ApprovedSays | backend/api/hitl.py:107-118 | What an approval posts: one review of the stored pull request whose body reads back as the stored findings by severity, APPROVE exactly when there are none. |
| Pipeline.Reject | backend/api/hitl.py:121-127 | 409 exactly when nothing waits; otherwise the rows are dismissed and nothing is posted. |
| Pipeline.ApproveRefinesProtocol | backend/api/hitl.py:95-119 | What `approve` leaves in the stores is what the protocol machine's run of the same steps leaves; a 404 is its abandoned approval, a 409 no step. |
| Pipeline.RejectRefinesProtocol | backend/api/hitl.py:121-127 | The same for `reject`. |
| Chunker.SplitByLineWindow | backend/ingestion/chunker.py:92-104 | The loop stops with 1 + max(0, ceil((n-200)/180)) windows, each the lines of its range. |
| Chunker.WindowsRebuildFile | backend/ingestion/chunker.py:92-104 | Windows have at most 200 lines, and dropping the first 20 lines of each later one gives the file back. |
| Chunker.FindBoundaries | backend/ingestion/chunker.py:70-76 | The boundaries are exactly the indices of symbol lines, ascending, with their symbols. |
| Chunker.SplitHead | backend/ingestion/chunker.py:82-85 | What stands before the first symbol is kept as one piece unless it is blank. |
| Chunker.SplitPython | backend/ingestion/chunker.py:66-89 | The loops produce the specified pieces, head and no-symbol cases included. |
| Chunker.PythonPiecesCoverFile | backend/ingestion/chunker.py:66-89 | The pieces joined are the file less at most a blank head. |
| Chunker.PythonPiecesHoldOneSymbol | backend/ingestion/chunker.py:81-89 | Every piece but a leading head starts with a symbol line and holds no other. |
| RepoTree.ChunkFile | backend/ingestion/chunker.py:107-113 | Pieces are numbered before blank ones are dropped. |
| RepoTree.ChunkRepo | backend/ingestion/chunker.py:116-137 | The walk yields the chunks of every selected, readable, not skipped file, in walk order. |
| RepoTree.ChunkIdsUnique | backend/ingestion/chunker.py:107-137 | No two chunks of a repository share (path, chunk_index). |
| RepoTree.FileChunksAre | backend/ingestion/chunker.py:107-137 | Which chunks a file has: none if vendored, a lock file, of a binary type, over 500000 bytes or unreadable; else its non-blank Python pieces, if the name ends in .py, or 200-line windows 180 apart, each under its own number with its symbol and text. |
| RepoTree.WalkAppends | backend/ingestion/chunker.py:116-137 | The chunks of a walk are those of its parts one after the other, so those of each visited file in turn. |
| RepoTree.LowerFoldsCase | backend/ingestion/chunker.py:52 | The binary-type test does not depend on the case of the suffix's ASCII letters. |
| RepoTree.SuffixIs | backend/ingestion/chunker.py:34-47 | A file's suffix starts at its last dot, unless that is the first or last character of the name. |
| RepoIndex.WriteLookup | backend/ingestion/indexer.py:111-151 | What every key holds after a write: the new chunk, nothing if its path was deleted or touched, else the old row; other repositories unchanged. |
| RepoIndex.FullIndexAgrees | backend/ingestion/indexer.py:166-194 | From any earlier contents a full index makes the repository's rows exactly the chunks of the tree and leaves other repositories alone. |
| RepoIndex.RowHoldsChunk | backend/ingestion/indexer.py:111-141 | Agreement row by row: a chunk and nothing else has a row, with its symbol and text, the embedding of that text and its token count. |
| RepoIndex.PushIsSummarised | backend/webhook_receiver/app.py:113-119 | The concatenated commit lists describe the whole push, however often a file is added, removed and added again inside it. |
| RepoIndex.AggregateAppends | backend/webhook_receiver/app.py:113-119 | What a push reports is what its first commits report followed by what the others report, list by list. |
| RepoIndex.IncrementalAgreesIff | backend/ingestion/indexer.py:198-222 | Starting from agreement, the rows agree with the chunks of the after-tree if and only if no still-present, unlisted-as-removed file went from chunks to none; other repositories are untouched either way. |
| RepoIndex.SilentFileKeepsRow | backend/ingestion/indexer.py:120-126 | Such a file keeps an old row, so the index disagrees. |
| RepoIndex.FileCanGoSilent | backend/ingestion/indexer.py:27 | It happens: a modified file that outgrows the size limit in a true push delta. |
| RepoIndex.ChainAgrees | backend/ingestion/indexer.py:198-222 | Agreement is kept along any chain of clean pushes. |
| Indexer.Indexer.Write | backend/ingestion/indexer.py:103-153 | Delete, upsert chunk by chunk, count and record in one transaction; the status row is `done` with the commit, the counted rows and no error, and no other status row changes. |
| Indexer.Indexer.FullIndex | backend/ingestion/indexer.py:166-196 | Stale paths are deleted and every chunk written; the result reports the chunks and the files that have chunks. |
| Indexer.Indexer.IncrementalIndex | backend/ingestion/indexer.py:198-228 | Only changed files are chunked, only removed paths deleted; the result reports the chunks written and the files listed as changed. |
| Indexer.Indexer.MarkFailed | backend/ingestion/indexer.py:155-164 | The row shows `failed` and this error; its commit and count keep their values (none and 0 for a new row), no other row and no chunk changes. |
| Indexer.Indexer.MarkPending | backend/ingestion/repo_status.py:14-26 | The row shows `pending`; its commit, count and error keep their values (none, 0 and none for a new row), no other row and no chunk changes. |
| Indexer.Indexer.IndexRepo | backend/job_queue/arq_worker.py:127-141 | A raising full index leaves the rows as they were and records the failure. |
| Indexer.Indexer.ReindexRepo | backend/job_queue/arq_worker.py:144-167 | The same for the incremental job. |
| Indexer.AggregatePush | backend/webhook_receiver/app.py:112-121 | The commit lists concatenated, None exactly when all are empty. |
| Indexer.StatesAreTruthful | backend/ingestion/indexer.py:231-259 | After any history of jobs over any repositories: chunk_count is the row count, `done` means no error and a commit, `failed` means an error. |
| Indexer.StateTellsHistory | backend/ingestion/indexer.py:242-259 | After any history the status is `done` if and only if the repository's last job was fetched and written (and then shows its commit and no error), `failed` if and only if it raised (and then shows its error), `pending` if and only if it was a webhook. |
| Indexer.NoJobNoRow | backend/ingestion/indexer.py:242-259 | A repository has a status row exactly when some job named it. |
| Indexer.CommitIsLastIndexed | backend/ingestion/indexer.py:242-251 | The recorded commit is that of the last successful job, whatever webhooks and failures came later. |
| Indexer.NoSuccessNoCommit | backend/ingestion/indexer.py:242-259 | There is no commit on record exactly when no job succeeded. |
| Indexer.ErrorIsLastFailure | backend/ingestion/indexer.py:242-259 | A new webhook leaves on the row the error, or its absence, of the last finished job. |
| Indexer.FullIndexCountsChunks | backend/ingestion/indexer.py:143-151 | The recorded count after a full index is the number of chunks embedded: none was lost to another with its key. |
| RedisKeys.IntRoundTrip | backend/orchestrator/redis_checkpointer.py:113-115 | Decimal text of every integer, negative ones included, reads back as the integer. |
| RedisKeys.RSplitJoined | backend/orchestrator/redis_checkpointer.py:113 | Splitting at the last separator undoes joining, whatever the head contains. |
| RedisKeys.FieldRoundTrip | backend/orchestrator/redis_checkpointer.py:113 | A hash field reads back as its task id and index, whatever the task id contains. |
| RedisKeys.FieldsDistinct | backend/orchestrator/redis_checkpointer.py:191 | Distinct (task, index) pairs have distinct fields. |
| RedisKeys.KeysInjective | backend/orchestrator/redis_checkpointer.py:38-47 | Keys tell thread, namespace and checkpoint apart when the last two hold no colon, although thread ids do. |
| RedisKeys.ColonsCollide | backend/orchestrator/redis_checkpointer.py:38-39 | The condition is needed: a namespace with a colon can collide. |
| RedisKeys.KindsDisjoint | backend/orchestrator/redis_checkpointer.py:38-47 | No key of one kind is a key of another. |
| Checkpointer.RedisImplementsStore | backend/orchestrator/redis_checkpointer.py:152-196 | Over every history of calls, puts that crash between `set` and `rpush` included, Redis implements a simple store of entries, orders and (checkpoint, task, index) slots. |
| Checkpointer.LatestIsLastPut | backend/orchestrator/redis_checkpointer.py:69-84 | The latest read is the last completed put, with the entry last set for that id, and never dangles (an empty id reads as none). |
| Checkpointer.EntryIsLastSet | backend/orchestrator/redis_checkpointer.py:82-84 | Reading by id gives the entry last set for it, whether or not the put got as far as listing it. |
| Checkpointer.SoughtIsLast | backend/orchestrator/redis_checkpointer.py:73-84 | A read without an id finds the last listed put and a read of an id that id, each with the entry last set for it. |
| Checkpointer.PutIdsEnd | backend/orchestrator/redis_checkpointer.py:69-71 | The id listed last is that of the last completed put, wherever it stands among the calls; nothing is listed without one. |
| Checkpointer.LastEntryIs | backend/orchestrator/redis_checkpointer.py:152-172 | The entry of an id is that of the last put of this id, crashed or not. |
| Checkpointer.FirstOrLastWins | backend/orchestrator/redis_checkpointer.py:189-196 | Under any replay a regular write keeps the first value offered to its slot and a special one the last. |
| Checkpointer.OfferIs | backend/orchestrator/redis_checkpointer.py:188-194 | Of the writes of one call that land in a slot the last counts, with its channel, its value and the task and path of the call. |
| Checkpointer.PendingIsExact | backend/orchestrator/redis_checkpointer.py:108-117 | The pending writes of a checkpoint are exactly the stored ones, each once, sorted by index. |
| Checkpointer.PendingOfHistory | backend/orchestrator/redis_checkpointer.py:108-117 | After any history the pending writes are the first offer to each regular slot and the last offer to each special one. |
| Checkpointer.ListingShowsEveryPut | backend/orchestrator/redis_checkpointer.py:119-150 | An unfiltered listing shows every completed put, newest first, none dangling. |
| Checkpointer.ListingOfHistory | backend/orchestrator/redis_checkpointer.py:119-150 | After any history a listing shows, newest first, exactly the completed puts older than `before` whose entry passes the filter. |
| Checkpointer.RedisSaver.Aput | backend/orchestrator/redis_checkpointer.py:152-172 | Sets the entry, then appends the id. |
| Checkpointer.RedisSaver.AputWrites | backend/orchestrator/redis_checkpointer.py:174-196 | Adds the collected fields to the checkpoint's hash and writes nothing when there are none. |
| Checkpointer.RedisSaver.CollectFields | backend/orchestrator/redis_checkpointer.py:188-194 | The loop over the writes collects exactly the specified fields, skipping regular ones already stored. |
| Checkpointer.RedisSaver.LoadPendingWrites | backend/orchestrator/redis_checkpointer.py:108-117 | Loads every field and sorts by index. |
| Checkpointer.RedisSaver.AgetTuple | backend/orchestrator/redis_checkpointer.py:73-106 | After any history of calls: without an id the last completed put, with an id that checkpoint, with the entry last set for it and its pending writes; None exactly when there is none. |
| Checkpointer.RedisSaver.Alist | backend/orchestrator/redis_checkpointer.py:119-150 | Newest first, older than `before`, filtered, cut at the limit (a limit of 0 still gives one). |
| Engine.StoredNeverRunsAgain | backend/orchestrator/langgraph_engine.py:45-53 | Whatever crashes and resumes follow, a specialist whose result was stored never runs again and its result never changes. |
| Engine.RunsAreBounded | backend/orchestrator/langgraph_engine.py:45-53 | A specialist is started at most once more often than the run was interrupted by a crash or a failing specialist. |
| Engine.RunsAreStarts | backend/orchestrator/langgraph_engine.py:45-53 | The runs counted for a specialist are exactly the steps of the run that start it. |
| Engine.AggregateAsIfUncrashed | backend/orchestrator/graph.py:82-87 | When the aggregate node is reached it gets what an uncrashed run with the stored outputs gets: the four stored outputs one after the other. |
| Engine.StoreIsHistory | backend/orchestrator/redis_checkpointer.py:152-196 | The store of every engine run, crashes inside a checkpoint put included, is the one that its checkpointer calls leave. |
| Engine.ResumeReadsRedis | backend/orchestrator/redis_checkpointer.py:108-117 | A resume skips a specialist exactly when Redis holds its output among the pending writes of the fan-out checkpoint, and with that output. |
| Engine.ResumeFindsCheckpoint | backend/orchestrator/redis_checkpointer.py:69-106 | What a resume is told, whatever crashed: nothing if the run was never started, the joined checkpoint once the join is stored, else the fan-out checkpoint with the results of exactly the specialists that will not run again. |
| Engine.JoinOrderIrrelevant | backend/orchestrator/state.py:24-27 | The order in which the results channel was filled does not matter to the join. |
| Resume.EveryAttemptGetsTheSame | backend/orchestrator/graph.py:82-99 | Once the aggregate node has been given its findings, every later attempt, after any crashes and resumes, is given the same. |
| Resume.ResumedWritesAreOneWrite | backend/integrations/truth_store.py:106-140 | The attempts of a resumed run that died while inserting, followed by one that did not, leave the table as one write does. |
| Scorer.ScoreCase | backend/evaluation/scorer.py:69-93 | The removing loop computes the size and the missed labels of the matching in which each expected finding in turn takes the first free one; the false positives, none exactly when every ceiling is kept; matched + missed = expected. |
| Scorer.RemoveFirst | backend/evaluation/scorer.py:78 | `remove` takes out the first equal element. |
| Scorer.FindHit | backend/evaluation/scorer.py:74 | The first remaining finding that matches, or that there is none. |
| Scorer.RecallIsFullIffNothingMissed | backend/evaluation/scorer.py:48-50 | Recall lies between 0 and 1 and is 1 exactly when nothing was missed. |
| Scorer.CountFalsePositives | backend/evaluation/scorer.py:81-84 | Findings beyond each agent's ceiling. |
| Scorer.GreedyIsMatching | backend/evaluation/scorer.py:70-79 | The greedy count is the size of the injective matching in which each in turn takes the first free partner, so it never exceeds the optimum. |
| Scorer.GreedyIsHalfOptimal | backend/evaluation/scorer.py:70-79 | Every matching is at most twice the greedy count. |
| Scorer.HalfIsReached | backend/evaluation/scorer.py:20-35 | The factor two is reached by a concrete case. |
| Scorer.ExtraFindingAddsAtMostOne | backend/evaluation/scorer.py:70-79 | One extra finding at any position changes the matched count by 0 or +1. |
| Scorer.ExtraFindingAddsAtMostOneFalsePositive | backend/evaluation/scorer.py:81-84 | The same for the false positives. |
| Scorer.MatchedAndMissed | backend/evaluation/scorer.py:70-79 | Every expected finding is either matched or missed. |
| Scorer.MissedFoundNothingFree | backend/evaluation/scorer.py:72-79 | Missed are the labels of exactly those expected findings that find no free partner in their turn. |
| Scorer.OneMatchesOne | backend/evaluation/scorer.py:20-35 | One expected finding is found by one actual one exactly when agent and file agree, the lines are within the tolerance if both have one, and the wanted words occur. |
| Scorer.WithinCeilings | backend/evaluation/scorer.py:81-84 | There is no false positive exactly when every agent with a ceiling keeps to it. |
| Scorer.ExtraFindingIsFalsePositiveIff | backend/evaluation/scorer.py:81-84 | One more finding is one more false positive exactly when its agent has a ceiling and had reached it. |
| Ingress.InvRun | backend/webhook_receiver/app.py:182-205 | The claim and counting invariants hold after every interleaving of handlers of one delivery id. |
| Ingress.ClaimIsHeldForAReason | backend/webhook_receiver/app.py:182-205 | The dedup key is held only while a handler is mid-flight, or all jobs are queued, or a rollback raised; at most one handler is mid-flight, and none once one accepted. |
| Ingress.AcceptedMeansQueued | backend/webhook_receiver/app.py:192-205 | "accepted" is answered at most once and only when every operation ran. |
| Ingress.QueuedAtMost | backend/webhook_receiver/app.py:192-203 | The last operation is queued at most once, every other at most once more than claims were given back. |
| Ingress.OneJobPerDelivery | backend/webhook_receiver/app.py:85-97 | A delivery with one operation (pull_request, push) puts at most one job on the queue. |
| Ingress.QueuedOnceIffLast | backend/webhook_receiver/app.py:192-203 | An operation is queued at most once in every run if and only if it is the last of its delivery. |
| Ingress.NoDeliveryIsSwallowed | backend/job_queue/queue.py:140-147 | With no handler at work and no raised rollback, either all jobs are queued or the next delivery starts over. |
| Ingress.DuplicateCanBePremature | backend/webhook_receiver/app.py:188-190 | "already processed" can be answered although nothing was processed, and nothing will be on that claim. |
| Ingress.DuplicateIsTrueIff | backend/webhook_receiver/app.py:188-190 | A new handler is told "already processed" exactly when the claim is held, and this is true if and only if the claim holder has accepted. |
| Ingress.AllQueuedIffAccepted | backend/webhook_receiver/app.py:192-205 | All jobs of a delivery are queued if and only if the holder of its claim has accepted it. |
| Webhook.JobQueue.ReceiveWebhook | backend/webhook_receiver/app.py:155-205 | Requests that fail a check change nothing and get their own answer; any other handler is a run of the interleaving model, with jobs queued and repositories marked pending in order up to the first raising operation. |
| Webhook.JobQueue.Process | backend/webhook_receiver/app.py:182-205 | Duplicate, accepted or unavailable, exactly when; which claim remains. |
| Webhook.JobQueue.EnqueueAll | backend/webhook_receiver/app.py:192-205 | The loop and its rollback as steps of the interleaving model. |
| Webhook.JobQueue.RunOps | backend/webhook_receiver/app.py:193-194 | The loop: jobs queued and repositories marked pending, in order, up to the first operation that raises. |
| Webhook.JobQueue.RunOp | backend/webhook_receiver/app.py:71-76 | Status first, queue second; which of the two took effect when one raises. |
| Webhook.QueuedAreMarked | backend/webhook_receiver/app.py:73-74 | The operations that ran marked as pending the repositories of exactly the index and reindex jobs. |
| Webhook.JobQueue.MarkSeen | backend/job_queue/queue.py:127-138 | True for the first caller only. |
| Webhook.JobQueue.Unclaim | backend/job_queue/queue.py:140-147 | Removes that delivery's key and no other. |
| Webhook.RedeliveredInstallation | backend/webhook_receiver/app.py:99-109 | A two-repository installation whose second enqueue fails once leaves the first repository's job queued twice. |
| Breakers.RunReaches | backend/reliability/circuit_breaker.py:47-54 | The failure counter has reached n exactly when the last n outcomes all failed. |
| Breakers.CircuitBreaker.BeforeCall | backend/reliability/circuit_breaker.py:35-45 | Rejects if and only if the last max(1, threshold) outcomes failed and the last of them is younger than the cooldown. |
| Breakers.CircuitBreaker.OnFailure | backend/reliability/circuit_breaker.py:51-54 | Records one failure and keeps the fields in step with the history. |
| Breakers.CircuitBreaker.OnSuccess | backend/reliability/circuit_breaker.py:47-49 | Records one success and closes the breaker. |
| Breakers.InlineBreaker.BeforeCall | backend/job_queue/queue.py:53-58 | The same answer from the breaker without a state property. |
| Breakers.InlineBreaker.OnFailure | backend/integrations/github_client.py:69-72 | The same recording. |
| Breakers.InlineBreaker.OnSuccess | backend/integrations/github_client.py:65-67 | The same recording. |
| Breakers.BreakersAgree | backend/reliability/conformance.py:21-52 | Breakers of both forms with the same settings and history reject the same calls. |
| Breakers.TwoProbes | backend/reliability/circuit_breaker.py:43-49 | After the cooldown a second call before any outcome is let through like the first: there is no single probe. |
| Breakers.BreakerContract | backend/reliability/conformance.py:21-52 | For all histories: a success closes, the failure that completes a run opens, and exactly for the cooldown. |
| Retry.RetryAsync | backend/reliability/retry.py:19-38 | At most `attempts` calls; the result is the first success, the first non-retried exception or the last one; the elapsed time is the attempts plus the sleeps between them; attempts < 1 raises without a call. |
| Retry.BackoffsAddUp | backend/reliability/retry.py:36 | Uncapped sleeps add up to base * (2^n - 1). |
| Retry.SleepsAddUp | backend/reliability/retry.py:36 | Exactly: base * (2^m - 1) for the m sleeps within the cap and the cap for each of the others. |
| Retry.TimedAttempt | backend/reliability/guard.py:43-46 | Under a timeout an attempt takes its own time or the timeout, whichever is shorter. |
| Retry.CallIsBounded | backend/reliability/retry.py:30-36 | A call lasts at most attempts * limit + min(base * (2^(attempts-1) - 1), (attempts-1) * max_delay). |
| Guards.Guard.Call | backend/reliability/guard.py:39-65 | A rejected call does nothing; any other is a retried call under the timeout that moves the breaker exactly once, or not at all if cancelled. |
| Guards.Report | backend/reliability/guard.py:55-64 | A cancellation is not a failure; every other exception is. |
| Guards.GuardedCallIsBounded | backend/reliability/guard.py:43-54 | A guarded call with a timeout is over in bounded time. |
| Guards.CallDeadDependency | backend/reliability/guard.py:39-65 | Sequential calls over time T to an operation that always raises invoke it at most attempts * (max(1, threshold) + floor(T / reset)) times. |
| Guards.CallDeadQueue | backend/job_queue/queue.py:116-125 | The same bound for the queue's guarded calls. |
| Guards.SendToDeadGitHub | backend/integrations/github_client.py:253-272 | The same bound for GitHub requests that get only transient answers. |
| Guards.AdmittedIsLate | backend/reliability/guard.py:39-41 | After the threshold, a call that is let through comes a cooldown after the last failure. |
| Guards.QueueGuarded | backend/job_queue/queue.py:116-125 | The queue's guarded call: three attempts, one report to the breaker unless cancelled. |
| Guards.WithRetry | backend/job_queue/queue.py:70-81 | First success, first cancellation or last exception, with uncapped backoff; no attempts means the assertion error. |
| Guards.Send | backend/integrations/github_client.py:230-272 | The first reply that is not transient decides; a definite 4xx counts as success for the breaker, only three transient replies count as one failure. |
| Budget.OvershootIsBounded | backend/economics/budget.py:45-51 | On a day that starts below the cap, recorded spend + in-flight * M < cap + N * M in every reachable state. |
| Budget.OvershootIsReached | backend/economics/budget.py:8-11 | The overshoot is real: from any spend below the cap some run adds all N full calls. |
| Budget.NoCallOverCap | backend/economics/budget.py:46-51 | Once the ledger has reached the cap no further call starts that day. |
| Budget.ReviewDiff | backend/agents/base_agent.py:95-143 | Untracked it records nothing; tracked it is blocked exactly when the ledger has reached the cap, and then nothing is recorded; otherwise the rows and the answer for every combination of raising points. |
| Budget.Span | backend/agents/base_agent.py:107-143 | The rows and the answer of a run that was let in. |
| Budget.Work | backend/agents/base_agent.py:113-138 | Retrieval, one model call, one bill, the reading of the answer, and which outcome follows. |
| Budget.TrailIsSpan | backend/agents/base_agent.py:107-143 | The rows open with the span, and close with the outcome the caller sees, a failure exactly when the work raised; the call comes after the retrieval. |
| Budget.TrailBills | backend/agents/base_agent.py:122-129 | A run adds the cost of its one call exactly when the row of the call was written, also when reading the answer raises afterwards. |
| Budget.RunRefinesMachine | backend/agents/base_agent.py:103-129 | A guarded run changes the ledger as its events do in the machine of the overshoot bound. |
| Fusion.RetrieveIsTopK | backend/memory/context_retriever.py:123-149 | At most k distinct chunks, sorted by score, each scoring at least as high as every candidate left out, and fewer than k only when all candidates are in. |
| Fusion.ScoreIs | backend/memory/context_retriever.py:143-148 | The score of a chunk is 1 / (60 + rank) for each search that found it and 1 / 1000060 for one that did not. |
| Fusion.RetrieveIsAnswer | backend/memory/context_retriever.py:124-148 | Any two rankings of a repository, text hits being among its chunks, give an answer the theorems below speak about. |
| Fusion.AgreementFirstIff | backend/memory/context_retriever.py:40 | Every chunk found by both searches precedes every chunk found by one, for all rankings and all orders of ties, if and only if k <= 61. |
| Fusion.AgreementFirstUpTo61 | backend/memory/context_retriever.py:143-148 | The positive half for one answer. |
| Fusion.AgreementLosesFrom62 | backend/memory/context_retriever.py:143-148 | The counterexample from k = 62 on. |
| Fusion.DominanceIsKept | backend/memory/context_retriever.py:143-148 | No worse in either search and better in one means listed first, for lists shorter than the missing rank. |

## Left out

- HTTP, FastAPI wiring, asyncpg, redis-py, pickle and serde, JWTs and tokens, signatures: abstract steps or opaque values.
- The frontend, `api/repos.py`, `api/reviews.py`, `auth/`, `prompts/`, tracing, `list_pending`: display and plumbing.
- `security/injection_guard.py`: regular expressions over prompts.
- `adelete_thread`: depends on Redis glob patterns and SCAN.
- Tarball download, extraction and the file system walk: a tree is a map from path to content, `walk` lists its files in some order.
- Render.RenderReviewBody: a body is a sequence of headings, items and quotes; how an item's fields are spelled out (`{:.2f}`), the final `rstrip` and `splitlines` (a parameter) are not modelled.
- Render.RenderItems: an item line carries its finding, not the text made from it, for the same reason.
- Case folding, the Python-symbol regex, blankness, embeddings and token counts are parameters.
- Floating point: confidences, scores, costs and times are real numbers; only NUMERIC(4,3) rounding, of findings and of the review score, is modelled.
- `WRITES_IDX_MAP` belongs to LangGraph: it is a parameter that maps channels to indices.
- `mean_recall`, `total_false_positives`, suites, the judge and the regression gate: sums over cases.
- Lost responses, two workers on one delivery, concurrent index jobs, out-of-order pushes, TTL expiry: excluded by assumption, since the code does not guard against them.
- Pipeline.Aggregate: the decision row that `aggregate` emits between the insert and the post is not modelled; if emitting raises, the job dies there, which is a worker crash of `ReviewProtocol` in state `Saved`.
- Pipeline.RunReview: fetching the diff and running the graph are replaced by the specialists' results; `Engine` models the graph run, a failing fetch is a worker crash.
- `with_timeout` waits for the cancelled attempt to stop; the model cuts it off at once.
- Guards.CallDeadDependency: speaks of sequential calls only, because concurrent calls share no admission count.
- ReviewTables.TruthStore.GetReviewWithFindings: returns table order, while callers may rely on no order, as `ReadBack` says.

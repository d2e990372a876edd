# Verified models of the workspace app's infrastructure

A Dafny model of the parts of the application whose correctness depends on order, concurrency or
retries, and proofs of what they guarantee. `dafny verify dfyconfig.toml` checks the whole project.

Code that changes state in place is modelled by classes and loops with the source's own fields and
branches. Each of their methods is proved equal to a function on values (`Next`, `Apply`, `Run`, …),
and the guarantees are lemmas about those functions over every input, every run and every interleaving.
What a run does is also told without those functions: from the input, or from the list of its events alone.
PostgreSQL rows are maps or sequences, a transaction or row lock is one step, and Cloud Tasks, `NOTIFY`,
browsers and lost connections are an environment that chooses the next event. Regular expressions,
hashes, clocks, tokenizers and the JSON text format are parameters.

| files | subject |
|---|---|
| `Keyset`, `Walks`, `Pagination` | keyset pagination: the cursor filter, page walks over tables that change, the paginator |
| `Transactions` | transactions and the callbacks that run after their commit |
| `Jobs`, `JobGroups`, `GroupRetries`, `GroupHistory`, `Outbox` | a job under redelivery, the group barrier and its callback, groups whose jobs fail and are tried again, nested outbox scopes with the inline runner |
| `ChatBuckets`, `ChatOrder`, `ChatWindows`, `IsoDates` | adaptive windows of a chat history and their source ids |
| `EmailText`, `ReplyFragments`, `ReplySections`, `EmailReplies`, `Text` | the email reply parser: the text before the scan, the fragments, the reply told on lines, the scanner |
| `Subscriptions` | the PostgreSQL subscription adapter |
| `Replication`, `ReplicationHistory`, `LiveDocuments` | replication of live documents |
| `ScheduledSend`, `SendHistory`, `ScheduledDrafts` | scheduled sends |
| `Chunking` | greedy chunking of objects and tokens |
| `BulkGrants`, `AccessUpdates`, `HardDeletes` | jobs that work in batches |
| `Topics` | topic names and channel names |
| `Base64`, `TaggedJson` | base64url, tagged JSON, the pagination cursor |
| `Sessions` | the session dictionary and the session cookies |
| `Options`, `Sequences` | shared definitions |

## What the proofs found

Where the code does not do what its comments or names promise, a lemma gives an input and another one says
exactly when it does.

- A page walk loses rows whose sort value is null where the cursor has a value, in an ascending column
  that is not a nullable date (`Keyset.NullRowLost`); `Keyset.FilterExact` and
  `Pagination.StableRowReturned` say exactly which rows.
- A transaction opened on its own inside another one runs its callbacks at its own end, also when the outer
  one is then rolled back (`Transactions.InnerCommitsAlone`); `Transactions.ScopeRunsDue` says exactly which
  callbacks run.
- On the final retry a failed grouped job is reported twice, and the termination clears the error, so the
  group's callback runs although its job failed (`GroupRetries.FinalRetryCallsBack`). A termination of a failed
  job calls back exactly under the conditions of `GroupRetries.FailedTerminationIff`; in runs with any retries and
  terminations, `GroupRetries.CallbackAfterFailureIff` says exactly when a callback follows a failure, and
  `GroupRetries.KeepsInvIff` which steps keep the counters right.
- A command taken from the queue may never be marked done, although its listener is installed later
  (`Subscriptions.LostSubscribeInstalled`): `Subscriptions.MarkedIff` says exactly which, and
  `Subscriptions.DoneExactly` that a run marks all others, in order. Subscribing one callback twice to a topic
  leaves a listener that no unsubscribe removes (`Subscriptions.RepeatedLeaks`,
  `Subscriptions.ListenersExact`).
- A fire job of an earlier schedule may send with the old archive choice, when its cancel was lost
  (`ScheduledSend.StaleFire`), and also with no cancel lost, after a sweep has pointed the mail to another job
  (`ScheduledSend.StaleAfterSweep`). A fire sends what was asked for last exactly if its job was made for the
  same request (`ScheduledSend.FireSendsIff`).
- The sweep does not check the time again under its lock, so a mail that was put off meanwhile gets a job that
  fires at once (`ScheduledSend.SweepForgetsTime`), exactly if the last schedule since the query was for a time
  after the cutoff (`ScheduledSend.SweepsEarlyIff`).
- A content row deleted between two jobs of the access chain makes the chain miss another row
  (`AccessUpdates.DeletionMisses`). However the table changes, a row is missed only if it slips from behind the
  next offset to before it (`AccessUpdates.NeverSlipsHandled`), and while rows are only deleted exactly then
  (`AccessUpdates.ShrinkingHandledIff`); rows that are added do no harm (`AccessUpdates.GrowingHandled`).
- `session |= …` changes the session without marking it (`Sessions.UnionUnmarked`); changes are marked exactly
  if some other action marks the session or the unions add nothing to it (`Sessions.ModifiedIff`).
- A stream with a separator in it shares the name of another topic (`Topics.SeparatorConfuses`,
  `Topics.RoundTripIff`), and different names may share a channel (`Topics.ChannelShared`), exactly under the
  conditions of `Topics.ChannelSharedIff`.
- The docstring of `chunk_objects` promises chunks within the target. One item over the target gives an empty
  chunk and one that is over it (`Chunking.OversizedChunk`); all chunks are within the target exactly if every
  item is (`Chunking.WithinIff`).
- A dictionary with a reserved tag is not read back from tagged JSON, and so not from a cursor
  (`TaggedJson.RoundTripIff`, `TaggedJson.CursorRoundTrip`).

## Model

| member | source | states |
|---|---|---|
| Keyset.FilterExact | infra/db.py:1319-1345 | the OR-of-ANDs filter made from a cursor selects a row if and only if it is strictly after the cursor in the mixed ascending and descending order with the id last, and no null rule hides it |
| Keyset.ClauseSelects | infra/db.py:1322-1343 | one clause holds exactly for the rows after the cursor whose first difference is its own field |
| Keyset.CleanNeverHidden | infra/db.py:1323-1337 | rows without nulls, or with nulls only in coalesced ascending columns, are never hidden |
| Keyset.BeforeTotal | infra/db.py:1314 | the sort order with the id as tiebreak is total on rows with different ids |
| Keyset.BeforeAhead | infra/db.py:1314 | with the id as the last field a row is before another if and only if, in the first field they differ in, it has the smaller value of an ascending or the larger one of a descending field, or else the smaller id |
| Keyset.FollowsTransitive | infra/db.py:1319-1345 | a row after a cursor row that is after another cursor row is after the first, hidden rows included |
| Keyset.NullRowLost | infra/db.py:1323-1337 | a concrete row after the cursor that the filter does not select, its sort value being null |
| Pagination.Paginator.constructor | infra/db.py:1246-1257 | the page size is at least one and nothing was fetched |
| Pagination.Paginator.Paginate | infra/db.py:1306-1364 | the results are in the order of the query's own ordering when it has one, else of the model's, and then by id; results and next cursor are the page of the matching rows, and an extra row is what makes a cursor |
| Pagination.Paginator.BuildFilter | infra/db.py:1321-1343 | the loop builds the clauses of the filter, nulls skipped and nullable dates coalesced |
| Pagination.Paginator.FetchPage | infra/db.py:1347-1362 | one row more than a page is read, dropped again, and the cursor is of the last row kept |
| Pagination.PaginateFaithful | infra/db.py:1306-1364 | every fetch, from the start or from a row's cursor, returns the first rows after it in the order |
| Pagination.NeverTwice | infra/db.py:1314-1362 | over tables changed at will between fetches the rows come back strictly in the order of the query's own ordering, else of the model's, and then by id, so no row with unchanged keys twice |
| Pagination.StableRowReturned | infra/db.py:1314-1362 | a row that stands unchanged for a whole finished walk is returned if and only if no cursor of the walk hides it by a null rule |
| Pagination.CleanRowReturned | infra/db.py:1314-1362 | with clean rows, such as non-null sort keys, every row that stands unchanged for a finished walk is returned |
| Pagination.StillTablePages | infra/db.py:1254-1362 | over a table nobody changes the pages concatenate to its rows in that order if and only if no row is hidden at a page boundary, with the exact number of pages |
| Pagination.CleanTableNothingHidden | infra/db.py:1323-1337 | clean tables meet that condition |
| Pagination.CursorsEnd | infra/db.py:1347-1362 | following the cursors over a still table ends |
| Walks.WalkSorted | infra/db.py:1314-1362 | any walk of pages "the next rows after the last one returned" is strictly sorted, whatever becomes of the table |
| Walks.WalkStable | infra/db.py:1314-1362 | such a walk returns a row present throughout exactly when no cursor hides it |
| Walks.StillWalk | infra/db.py:1314-1362 | over a still table such a walk gives the whole sorted table exactly when nothing is hidden at a boundary |
| Transactions.Context.RegisterAfterCommit | infra/db.py:522-534 | in a transaction the callback waits at the end of its list, outside it runs at once |
| Transactions.Context.RunTransaction | infra/db.py:483-519 | the surrounding list and flag are restored, and the callbacks that ran are those of the body's own transactions and, unless it raises, its list worked off |
| Transactions.Context.RunCallbacks | infra/db.py:509-516 | the loop over a list that callbacks append to works off the whole list |
| Transactions.ScopeRunsDue | infra/db.py:483-534 | over any nesting of transactions, joined blocks and callbacks that register callbacks, each callback runs exactly as often as it was registered in a transaction that commits, and never otherwise |
| Transactions.OutsideRunsDue | infra/db.py:522-534 | outside of transactions each callback runs as often as it is registered, unless in a transaction that raises |
| Transactions.OutsideAtOnce | infra/db.py:532-534 | outside of a transaction a callback runs before anything that comes later |
| Transactions.RegistrationOrder | infra/db.py:511-516 | callbacks run in the order they were registered, and those they register themselves after all of them |
| Transactions.InnerCommitsAlone | infra/db.py:490-519 | a transaction of its own in one that raises has run all its callbacks |
| Jobs.Job.SetStatus | infra/jobs.py:418-427 | the status sets its timestamp and clears or sets the error |
| Jobs.Job.Run | infra/jobs.py:380-416 | the row after one attempt: a success only if the row still says started, a raise saves the instance the attempt began with |
| Jobs.Job.Deliver | infra/jobs.py:815-865 | one delivery: without a row the answer is not found, completed rows are left alone, the final retry ends terminated if it did not complete, later ones terminate; a job whose delivery is accepted is done, and one answered with an error is not |
| Jobs.RetryBound | infra/jobs.py:835-865 | over any sequence of attempts `perform` runs at most `retry_count + 1` times and never on a completed or terminated row |
| Jobs.DoneByLimit | infra/jobs.py:840-858 | the job is completed or terminated by the delivery numbered `retry_count`, unless the process dies during it |
| Jobs.NotFinished | infra/jobs.py:380-416 | while no delivery has ended the job it is not done, was performed by each, and has the error of the last |
| Jobs.FirstDecides | infra/jobs.py:835-865 | the first delivery that ends the job decides: successful if it performed the job, returned and was not terminated meanwhile, else terminated; nothing performs it again |
| JobGroups.GroupStore.constructor | infra/jobs.py:561-578 | a new group counts its jobs and has no report |
| JobGroups.GroupStore.UpdateStatus | infra/jobs.py:171-200 | the counter goes down but not below zero, and at zero the callback is enqueued if and only if no job has an error and the callback has a type and details that are not empty |
| JobGroups.GroupStore.FinishJob | infra/jobs.py:389-399 | a job still started is completed, successful, and reports |
| JobGroups.GroupStore.SaveJobFailure | infra/jobs.py:402-405 | the error is saved before the report |
| JobGroups.GroupStore.ReportJobFailure | infra/jobs.py:407-412 | a failed attempt reports |
| JobGroups.GroupStore.TerminateJob | infra/jobs.py:453-461 | a termination clears the error and reports, and the handler of an attempt that has saved its error still reports after it |
| JobGroups.GroupStore.AddToGroup | infra/jobs.py:581-598 | a running job adds a job to its group and raises the counter |
| JobGroups.GroupStore.RunSteps | infra/jobs.py:161-200 | the rows after any sequence of these calls are those of the run on values, retries and terminations included |
| JobGroups.StepKeepsInv | infra/jobs.py:161-200 | every step of every job keeps: the counter is the number of jobs not reported, and the callback was enqueued exactly if all reported and none failed |
| JobGroups.Barrier | infra/jobs.py:161-200 | that holds at every moment of every interleaving in which each job reports once |
| JobGroups.CallbackWithLastReport | infra/jobs.py:185-200 | the callback is enqueued at most once, by the step that takes the counter from one to zero |
| JobGroups.NothingAfterLastReport | infra/jobs.py:389-399 | after the last report no step changes a row or the counter |
| JobGroups.EmptyGroupSilent | infra/jobs.py:561-578 | a group without jobs never calls back |
| GroupRetries.KeepsInvIff | infra/jobs.py:161-200 | a step keeps the counter and the callback right if and only if it keeps to one attempt and one report for each job, or is one of two harmless late steps |
| GroupRetries.FailedTerminationIff | infra/jobs.py:453-461 | terminating a failed job enqueues the callback if and only if at most one report is awaited, the callback is usable and no other job has an error |
| GroupRetries.FreeCallbackIff | infra/jobs.py:171-200 | in every run with any retries and terminations, a step enqueues the callback if and only if it reports, at most one report is awaited, the callback is usable and every job that failed was started or terminated since |
| GroupRetries.CallbackAfterFailureIff | infra/jobs.py:185-200 | so the callback follows a failed job in exactly those runs |
| GroupRetries.FinalRetryCallsBack | infra/jobs.py:840-849 | a concrete run in which the final retry reports twice and the callback follows a failed job |
| GroupHistory.BarrierTold | infra/jobs.py:161-200 | from the steps alone: in every run in which each job reports once, the counter is the number of jobs no step has ended, and the callback was enqueued exactly once if the group and its details are not empty, its type is not empty, every job ended and none failed, and else not at all |
| GroupHistory.RowsTold | infra/jobs.py:380-427 | from the steps alone: in every run, retries and terminations included, when a job was started, completed and terminated, and its error |
| GroupHistory.StatusTold | infra/jobs.py:418-427 | the status that follows from the steps |
| GroupHistory.MayIff | infra/jobs.py:380-416 | which steps are possible after which: an unfinished job may be started, a started one may succeed, fail or add jobs, a saved error is reported |
| GroupHistory.SuccessKept | infra/jobs.py:389-399 | a job whose `perform` returned, and that was not terminated, is completed for good and never started again |
| Outbox.Runner.RunScope | infra/jobs.py:506-527 | a scope hands over its own jobs after its body, and the outer pending list is as it was |
| Outbox.Runner.Enqueue | infra/jobs.py:761-771 | a job is recorded as scheduled, completed or failed after the scope of its own run |
| Outbox.ScopeAccounts | infra/jobs.py:469-531 | for any tree of jobs that enqueue jobs, each job reached is handed to the runner exactly once and is scheduled if it is for later, failed if it raises and completed otherwise, jobs added by a `perform` that raised included |
| Outbox.AddOrder | infra/jobs.py:506-527 | the jobs of a scope are handed over in add order, each after everything the earlier ones caused |
| Outbox.EndOrder | infra/jobs.py:767-771 | a job that ran is recorded after everything it caused, and before the jobs added after it |
| ChatBuckets.GroupByDate | app/jobs/content.py:891-895 | each day holds its messages in order, and only days with messages are there |
| ChatBuckets.AddDay | app/jobs/content.py:906-918 | one round of the merge loop keeps buckets, carry and carry start those of the closed runs and the rest |
| ChatBuckets.MergeThinDays | app/jobs/content.py:898-928 | the buckets are those of the days in date order, cut into runs that close as soon as they hold five messages, a thin rest joining the last run |
| ChatOrder.MergeUnique | app/jobs/content.py:898-928 | there is only one such way to cut the days |
| ChatOrder.RunLarge | app/jobs/content.py:898-928 | every merged bucket holds five messages unless it is the only one of a shorter input |
| ChatOrder.DaysAreSorted | app/jobs/content.py:891-906 | the messages of the days are the input sorted stably by date |
| ChatOrder.SortKeeps | app/jobs/content.py:891-901 | that is the input itself if and only if its dates were in order |
| ChatWindows.SplitBucket | app/jobs/content.py:936-958 | a bucket over one hundred messages is cut into windows numbered from 0, the k-th with the messages from 50 k on, up to fifty; another bucket is one window without a number |
| ChatWindows.SplitLargeBuckets | app/jobs/content.py:931-959 | the windows are those of the buckets in order |
| ChatWindows.SplitSizes | app/jobs/content.py:936-958 | a split bucket has pieces of exactly fifty but for a last one of one to fifty; another bucket is one window |
| ChatWindows.BuildAdaptiveWindows | app/jobs/content.py:883-888 | the windows are those of a pass through the three stages; they concatenate to the input sorted stably by date, have the sizes, numbers, moments and date ranges below, and have pairwise different source ids |
| ChatWindows.WindowsCover | app/jobs/content.py:883-959 | the windows concatenate to the input if and only if its dates were in order |
| ChatWindows.BucketsRanged | app/jobs/content.py:898-928 | bucket date ranges are strictly increasing and disjoint and hold their messages' dates |
| ChatWindows.WindowSizes | app/jobs/content.py:898-959 | every window has one to one hundred messages, a whole one at least five unless it is the only one of a shorter input, a piece at most fifty |
| ChatWindows.WindowsPlaced | app/jobs/content.py:936-958 | from the windows alone: each has the moments of its first and last message, its range the dates of the range's first and last message; a range is one window without a number, or three or more numbered from 0, each but the last with fifty messages |
| ChatWindows.IdFormats | app/jobs/content.py:861-867 | the four formats of the ids, with literal separators |
| ChatWindows.IdsDistinct | app/jobs/content.py:861-867 | the windows of one run have pairwise different source ids across all four formats |
| IsoDates.IsoInjective | app/jobs/content.py:862-867 | the fixed-width text of a date determines the date |
| IsoDates.IsoRead | app/jobs/content.py:861-867 | the ten characters are year, month and day, with dashes between them |
| IsoDates.DecimalRead | app/jobs/content.py:861-867 | a decimal text is read as its number and has no leading zero |
| IsoDates.DecimalInjective | app/jobs/content.py:864-866 | the text of a sequence number determines it |
| EmailReplies.Fragment.Finish | lib/email_reply_parser.py:30-33 | the lines are turned round and joined |
| EmailReplies.EmailMessage.HideFragments | lib/email_reply_parser.py:100-101 | every finished fragment is hidden, nothing else changes |
| EmailReplies.EmailMessage.MarkFragment | lib/email_reply_parser.py:102-111 | the fragment is hidden exactly if nothing visible was found and it is not plain, and a plain one counts as found |
| EmailReplies.EmailMessage.FinishFragment | lib/email_reply_parser.py:95-113 | closes the open fragment, hiding those below a header |
| EmailReplies.EmailMessage.ScanLine | lib/email_reply_parser.py:76-93 | the signature test and then the line joins the open fragment or starts one |
| EmailReplies.EmailMessage.Read | lib/email_reply_parser.py:47-70 | the fragments, in the order of the text, are those of the lines of the collapsed text, with an empty line above each boundary, scanned from the last one up, and below them those of an earlier reading of the same message |
| EmailReplies.StripEmailReplyQuotes | lib/email_reply_parser.py:116-119 | the result is the reply of the text's lines without carriage returns, collapsed, with an empty line above each boundary: told on lines and rules alone, the sections with none that is headed down to the last that is not quoted, signed or blank, stripped, joined and stripped |
| EmailReplies.SectionLines | lib/email_reply_parser.py:47-63 | every line of a section is a line of the collapsed text, or empty |
| EmailText.LineFeedsLines | lib/email_reply_parser.py:44 | the text is cut at every line feed, and one carriage return before it goes with it |
| EmailText.BoundariesLines | lib/email_reply_parser.py:60 | exactly the lines that start with at most one space and seven of `_` or `-`, right below a line that is not empty, get an empty line above them; nothing else changes |
| ReplySections.FragmentsReply | lib/email_reply_parser.py:65-119 | the contents of the scanner's visible fragments make the reply that is told on lines and rules |
| ReplySections.ReplyUnique | lib/email_reply_parser.py:65-119 | lines have one reply only |
| ReplyFragments.VisibleExactly | lib/email_reply_parser.py:95-113 | the visible fragments are exactly a prefix of the text: those above the topmost header, down to the last plain one among them |
| ReplyFragments.VisibleIff | lib/email_reply_parser.py:95-113 | a fragment is visible if and only if a plain fragment is at or below it with no header above that one |
| ReplyFragments.FragmentsGrouped | lib/email_reply_parser.py:76-93 | the fragments are the lines, each of the kind its lowest line sets, cut exactly where a line does not join or a blank line is above a signature |
| ReplyFragments.GroupedUnique | lib/email_reply_parser.py:76-93 | there is only one such grouping |
| ReplyFragments.FragmentsJoin | lib/email_reply_parser.py:62-69 | the raw texts of all fragments joined are the text that was scanned |
| Text.JoinSplit | lib/email_reply_parser.py:62 | joining the split lines gives the text |
| Text.SplitJoin | infra/messaging.py:39-45 | splitting joined parts without the separator gives the parts |
| Text.StripExact | lib/email_reply_parser.py:37 | what is stripped are exactly the spaces around the text |
| Subscriptions.Adapter.InstallListeners | infra/messaging.py:164-165 | a new connection gets exactly the wrappers of the dictionary, unless it is lost on the way |
| Subscriptions.Adapter.RemoveListeners | infra/messaging.py:171-173 | the wrappers of the dictionary are removed from a live connection, unless it is lost at one of them, which raises; from a dead one nothing is removed and nothing is raised |
| Subscriptions.Adapter.ProcessCommand | infra/messaging.py:204-218 | the dictionary, the listeners and the commands marked done after one command, with a connection that may be lost during it |
| Subscriptions.Adapter.ListenLoop | infra/messaging.py:159-178 | the state of the loop after any sequence of commands, losses, reconnects and shutdowns, with connections lost at any listener added or removed |
| Subscriptions.ListenersExact | infra/messaging.py:159-218 | whenever the loop waits on a live connection its listeners include those of the active subscriptions, and are exactly those if and only if none was subscribed again while active on that connection |
| Subscriptions.WrappersActive | infra/messaging.py:207-213 | in every run the dictionary holds exactly the subscriptions not yet unsubscribed |
| Subscriptions.LinkMoves | infra/messaging.py:159-178 | how each event moves the loop between reconnecting, a live or lost connection, and its end, told with the active subscriptions and the lost commands |
| Subscriptions.ShutDownClean | infra/messaging.py:169-178 | a shutdown on a live connection ends the loop unless a removal fails, and then leaves no listener on it if and only if none was subscribed again; otherwise the loop reconnects |
| Subscriptions.MarkedIff | infra/messaging.py:204-220 | a received command is marked done if and only if it is an unsubscribe with no entry or no connection, or its call on a live connection does not fail; otherwise the loop reconnects |
| Subscriptions.DoneExactly | infra/messaging.py:198-220 | in every run exactly the received commands that were not lost are marked done, in the order they were received |
| Subscriptions.LostSubscribeInstalled | infra/messaging.py:207-218 | a subscribe command that loses the connection is not marked done, but its listener is there after the reconnect |
| Subscriptions.RepeatedLeaks | infra/messaging.py:207-214 | subscribing twice and unsubscribing once leaves a listener without an entry |
| Replication.EveryChangeOnce | app/channels/live_documents.py:84-121 | in every run each change a client makes is broadcast at most once and saved at most once, the rest being exactly the pending tasks, and nothing else is broadcast |
| Replication.AllReached | app/channels/live_documents.py:114-152 | in every run what a session holds or will receive is exactly the base and all clients' changes |
| Replication.QuietConverged | app/channels/live_documents.py:114-152 | with nothing in flight every change was saved exactly once and every document is the base and the saved updates |
| Replication.QuietEqual | app/channels/live_documents.py:114-152 | with nothing in flight all sessions have the same document |
| Replication.StepsLeft | app/channels/live_documents.py:88-91 | every task step and delivery takes the system one step closer to rest, so applying a broadcast starts nothing |
| Replication.RestIff | app/channels/live_documents.py:114-121 | the system is at rest if and only if no step is left |
| Replication.StepPossible | app/channels/live_documents.py:114-121 | otherwise some task or delivery can take a step |
| Replication.HandshakeMeets | app/channels/live_documents.py:134-145 | after step 1 of a client is answered in both directions client and session hold the union, and a task is made exactly if the client had something new |
| ReplicationHistory.QueueHistory | app/channels/live_documents.py:131-132 | from the events alone: the messages that arrived at a session are those it took and then those in its queue, in order |
| ReplicationHistory.TakenHeld | app/channels/live_documents.py:134-145 | a session holds every operation of every message it took |
| ReplicationHistory.AllSentEverywhere | app/channels/live_documents.py:114-152 | from the events alone: with every message taken and nothing in flight, every session holds the base and all that any client sent and nothing else, and exactly what is not of the base was saved |
| ReplicationHistory.EveryBroadcastReaches | app/channels/live_documents.py:114-121 | every session, the sender's too, has each broadcast made delivered or on its way; the saved rows are those that were saved |
| LiveDocuments.SharedDocument.ObserveDocumentChange | app/channels/live_documents.py:88-91 | a change makes a task unless its transaction has an origin |
| LiveDocuments.SharedDocument.ProcessSyncMessage | app/channels/live_documents.py:134-145 | one client message: the document, the tasks and the replies |
| LiveDocuments.SharedDocument.HandleServerSyncUpdate | app/channels/live_documents.py:147-152 | a broadcast is applied with the remote origin |
| LiveDocuments.Topic.Send | app/channels/live_documents.py:115-117 | a broadcast goes to every session, the sender's too |
| LiveDocuments.Topic.BroadcastChange | app/channels/live_documents.py:114-117 | the first half of a task |
| LiveDocuments.Topic.SaveChange | app/channels/live_documents.py:118-121 | the second half |
| LiveDocuments.Topic.RunEvents | app/channels/live_documents.py:84-152 | the sessions after any interleaving are those of the protocol on values, and each queue holds the messages that arrived and were not taken yet |
| ScheduledSend.HandedExactly | app/jobs/email.py:36-68 | in every run a mail that is there was handed to the client once for each time it went back from sending, and once more exactly if it is sending |
| ScheduledSend.AtMostOnce | app/jobs/email.py:30-68 | when nothing moves a mail back from sending, every interleaving of fires, duplicates, sweeps, unschedules and deletes hands it over at most once |
| ScheduledSend.NewestJob | app/jobs/email.py:115-119 | in every run `scheduled_send_job_id` points to the newest job of a scheduled mail, and every job carries the mail's thread |
| ScheduledSend.SweepKeepsRequest | app/jobs/email.py:121-133 | while no referenced job row is purged, repeated sweeps rebuild the sender and the archive choice that were asked for |
| ScheduledSend.PurgedSweepIff | app/jobs/email.py:125-133 | once the row is purged the fallback is what was asked for if and only if that was a plain send of the owner |
| ScheduledSend.FireSendsRequest | app/jobs/email.py:36-68 | a fire of the schedule in force hands over its own mail with what was asked for |
| ScheduledSend.UnscheduledStays | app/jobs/email.py:37-39 | a mail that is not scheduled is not handed over by any fire or sweep until it is scheduled or sent |
| SendHistory.EveryHandOverAsked | app/jobs/email.py:36-68 | from the events alone: while no mail goes back from sending and no referenced row is purged, whatever is handed over was sent at once by someone with this choice, or scheduled so by them and then fired with permission |
| SendHistory.RowsAsked | app/jobs/email.py:121-133 | while no referenced row is purged, every job carries the sender, the choice and, if it has one, the time of some schedule of its mail |
| SendHistory.UnscheduleHolds | app/routers/api/email_drafts.py:324-330 | after an unschedule a mail is not handed over until it is scheduled or sent |
| SendHistory.EndedStays | infra/jobs.py:683-687 | a job that has ended is gone or ended for good |
| SendHistory.DeletedStays | app/models/workspaces/email/thread.py:679-697 | a deleted mail stays away |
| SendHistory.MailsMade | app/models/workspaces/email/thread.py:629-642 | every mail has the thread and the owner it was created with |
| SendHistory.CreateStarts | app/models/workspaces/email/thread.py:623-648 | when a draft is started, and that it replaces only the one it should |
| SendHistory.SendNowSends | app/routers/api/email_drafts.py:230-245 | when an immediate send hands over, and with which sender and choice |
| SendHistory.ScheduleSets | app/routers/api/email_drafts.py:278-297 | when a schedule takes effect, its time and its job |
| SendHistory.FireSends | app/jobs/email.py:30-68 | when a fire hands over, with which sender and choice, and that otherwise it does nothing |
| SendHistory.SweepMakes | app/jobs/email.py:111-133 | what one row of the sweep makes |
| ScheduledSend.StaleFire | app/routers/api/email_drafts.py:340-345 | after a lost cancel a job of an earlier schedule fires once the mail was scheduled again, and sends with the old choice |
| ScheduledSend.StaleAfterSweep | app/jobs/email.py:115-119 | after a sweep the cancel ends the sweep's job, so the job of the earlier schedule fires with the old choice although no cancel was lost |
| ScheduledSend.FireSendsIff | app/jobs/email.py:36-68 | while no mail goes back from sending and no referenced job row is purged, a fire hands over what was asked for last if and only if its job was made, by a schedule or by a sweep, for a request with the same sender and archive choice |
| ScheduledSend.SweepForgetsTime | app/jobs/email.py:107-119 | a mail put off between the query and its lock gets a job that fires at once |
| ScheduledSend.SweepsEarlyIff | app/jobs/email.py:88-119 | a mail that was overdue at the query gets a job before its time if and only if it is still scheduled at its lock and the last schedule in between was for a time after the cutoff |
| ScheduledDrafts.Tables.CreateDraft | app/models/workspaces/email/thread.py:608-650 | a draft is made on a thread that has none, or in the same transaction replaces the one it has |
| ScheduledDrafts.Tables.DeleteDraft | app/models/workspaces/email/thread.py:679-697 | the message is gone, whatever became of it since it was looked up |
| ScheduledDrafts.Tables.ScheduleDraft | app/routers/api/email_drafts.py:278-297 | scheduling under the lock: conflicts, the job row and the mail |
| ScheduledDrafts.Tables.SendDraftNow | app/routers/api/email_drafts.py:230-245 | the immediate send under the lock |
| ScheduledDrafts.Tables.UnscheduleDraft | app/routers/api/email_drafts.py:324-330 | unscheduling under the lock, which gives the job to cancel |
| ScheduledDrafts.Tables.CancelJob | infra/jobs.py:676-687 | a cancel that reaches its task terminates the job row, and another one changes nothing |
| ScheduledDrafts.Tables.SendDraft | app/models/workspaces/email/thread.py:736-746 | the draft is sending, its schedule is cleared, and it is handed over |
| ScheduledDrafts.Tables.FireJob | app/jobs/email.py:30-68 | the guards of a fire and its send |
| ScheduledDrafts.Tables.RebuildSendJob | app/jobs/email.py:121-133 | the fields of the job meant to fire, or a plain send |
| ScheduledDrafts.Tables.SweepMail | app/jobs/email.py:111-119 | one row of the sweep |
| ScheduledDrafts.Tables.FindOverdue | app/jobs/email.py:89-98 | only overdue mails, and all of them below the limit |
| ScheduledDrafts.Tables.SweepOverdue | app/jobs/email.py:88-119 | the sweep over the rows it found, one transaction each, with any other transactions between them |
| ScheduledDrafts.Tables.RunEvents | app/jobs/email.py:30-133 | the tables after any interleaving of transactions |
| Chunking.ChunkObjects | lib/encoding.py:41-64 | the chunks concatenate to the input, hold more than the target only as single items, each is full for the next item, and an empty one comes first exactly if the first item is over the target |
| Chunking.WithinIff | lib/encoding.py:48-50 | every chunk is within the target, as the docstring promises, if and only if every item is |
| Chunking.OversizedChunk | lib/encoding.py:57-64 | one item over the target gives an empty chunk and a chunk over the target |
| Chunking.GreedyOptimal | lib/encoding.py:41-64 | no partition of the items into such chunks has fewer of them |
| Chunking.ChunkString | lib/encoding.py:13-38 | the texts are the decoded greedy chunks of the tokens, an empty one first when the maximum is below one |
| Chunking.TokenChunks | lib/encoding.py:26-36 | every chunk but the last has exactly the maximum number of tokens, or one when the maximum is below one |
| BulkGrants.Grants.GrantOne | app/jobs/maintenance.py:667-693 | a resource fails, is skipped or is added, and is recorded as tried |
| BulkGrants.Grants.GrantBatch | app/jobs/maintenance.py:602-613 | the counters of one batch are those of a pass over it |
| BulkGrants.Grants.Perform | app/jobs/maintenance.py:539-665 | one job: its guards, its batch and its continuation |
| BulkGrants.Grants.RunChain | app/jobs/maintenance.py:539-665 | the chain ends after an exact number of jobs, tried every resource of every table once and in order, and its last counters are those of one bulk pass; with a batch size of zero it tries nothing |
| BulkGrants.PassAccounts | app/jobs/maintenance.py:602-618 | added, skipped and failed add up to processed, and exactly the resources that did not fail are granted |
| BulkGrants.PassCounts | app/jobs/maintenance.py:602-613 | failed counts the resources that fail, added those that gained access, and skipped the rest |
| BulkGrants.PassIdempotent | app/jobs/maintenance.py:515-517 | a second pass adds nothing |
| AccessUpdates.Contents.Perform | app/jobs/content.py:1042-1079 | one batch of two hundred rows is updated, and a full batch continues |
| AccessUpdates.Contents.RunChain | app/jobs/content.py:1042-1079 | the chain updates every row of a still table, in an exact number of jobs |
| AccessUpdates.GrowingHandled | app/jobs/content.py:1048-1058 | rows may be added anywhere between the jobs and every row that was there at first is updated |
| AccessUpdates.NeverSlipsHandled | app/jobs/content.py:1048-1058 | however the table changes between the jobs, a row that stays is updated unless it slips from behind the next offset to before it |
| AccessUpdates.ShrinkingHandledIff | app/jobs/content.py:1048-1058 | while rows are only deleted, a row that stays is updated if and only if it never slips |
| AccessUpdates.DeletionMisses | app/jobs/content.py:1054-1057 | a row deleted between the jobs makes the chain miss the row at the next offset |
| HardDeletes.Table.DeleteOf | app/jobs/maintenance.py:427-442 | the loop at offset zero deletes exactly the rows of the user, counts them, and leaves the other rows in order; with a batch size of zero it deletes nothing |
| HardDeletes.BatchDeleted | app/jobs/maintenance.py:434-439 | a batch takes the first rows of the user and no other row |
| Topics.FromName | infra/messaging.py:37-53 | the loop over the parts, and the error for a parameter named like one of the constructor |
| Topics.ParsedTold | infra/messaging.py:37-53 | what a name is read as: the stream before the first separator, then pairs, a part without a partner being ignored, and the error exactly for a key named like a parameter of the constructor |
| Topics.PairsTold | infra/messaging.py:45-49 | a key has the value of the last pair with it |
| Topics.ItemsSorted | infra/messaging.py:60 | the parts of a name are each key and its value, the keys in increasing order |
| Topics.RoundTripIff | infra/messaging.py:37-61 | reading a topic's name gives the topic back if and only if none of its parts holds the separator |
| Topics.ParsedBare | infra/messaging.py:37-53 | a topic read from a name never holds the separator |
| Topics.NamesDistinct | infra/messaging.py:63-70 | topics without the separator are equal if and only if their names are |
| Topics.SeparatorConfuses | infra/messaging.py:56-61 | two different topics with one name |
| Topics.PostgresNameValid | infra/messaging.py:234-250 | a channel name is a lower-case identifier of 1 to 63 bytes that does not start with a digit |
| Topics.PostgresNameFixed | infra/messaging.py:234-250 | exactly the valid channel names are left as they are, so the function is idempotent |
| Topics.ChannelShared | infra/messaging.py:235-241 | two names with one channel name |
| Topics.ChannelSharedIff | infra/messaging.py:234-250 | two names share a channel if and only if they have the same letters up to case and characters that are cleaned, the digit prefix included, where a name that is too long counts as its front and the eight digits of its digest |
| Base64.ArrayBufferToBase64Url | static/service-worker.js:188-193 | the text is the base64url form without padding |
| Base64.UrlBase64ToUint8Array | static/service-worker.js:180-187 | the array is what the text decodes to after padding and replacing, or an error |
| Base64.UrlRoundTrip | static/service-worker.js:180-193 | decoding an encoded array gives its bytes back |
| Base64.SymbolBits | infra/db.py:1271-1282 | three bytes and their four symbols are the same 24 bits in the alphabet of section 4 of RFC 4648, and one or two bytes at the end are the first bits of two or three symbols |
| Base64.UrlSymbols | static/service-worker.js:188-193 | in the url form the last two symbols of the alphabet are `-` and `_` |
| Base64.EncodeDecodes | infra/db.py:1271-1282 | decoding standard base64 gives the bytes back |
| Base64.PaddingRestored | infra/db.py:1276-1280 | any part of the padding that is stripped is put back as it was |
| TaggedJson.RoundTripIff | lib/json.py:9-41 | decoding an encoded value gives it back if and only if no dictionary in it carries a reserved tag that is true beside a value |
| TaggedJson.WireFormat | lib/json.py:10-23 | the objects that values JSON does not have are written as |
| TaggedJson.CursorRoundTrip | infra/db.py:1268-1289 | a cursor gives its pairs back, also with any part of its padding stripped, if and only if they carry no reserved tag |
| Sessions.ModifiableSessionDict.SetItem | app/middleware/sessions.py:29-31 | the item is set and the session marked |
| Sessions.ModifiableSessionDict.DelItem | app/middleware/sessions.py:33-35 | the session is marked even if the key is missing |
| Sessions.ModifiableSessionDict.Clear | app/middleware/sessions.py:37-40 | marked only if there was something to clear |
| Sessions.ModifiableSessionDict.Pop | app/middleware/sessions.py:42-45 | marked only if the key was there |
| Sessions.ModifiableSessionDict.SetDefault | app/middleware/sessions.py:51-54 | marked only if the key was missing |
| Sessions.ModifiableSessionDict.Update | app/middleware/sessions.py:56-58 | always marked |
| Sessions.ContentsTold | app/middleware/sessions.py:29-58 | after any actions a session holds under each key what the last action that touched it left there |
| Sessions.LoggedInIff | app/middleware/sessions.py:105 | a session is of a user exactly if its `user_id` is there and not null, false, zero or empty |
| Sessions.ChangeMarked | app/middleware/sessions.py:12-58 | after any actions but `\|=`, contents that differ from the initial ones imply modified |
| Sessions.ModifiedIff | app/middleware/sessions.py:12-58 | after any actions, contents that differ imply modified if and only if some action marks the session as it finds it, or what the unions add was there from the start |
| Sessions.UnionUnmarked | app/middleware/sessions.py:12-58 | `\|=` alone never marks, and changes the contents exactly if it adds something |
| Sessions.Call | app/middleware/sessions.py:77-124 | the cookies of a response, from the jar of the request and what the application did |
| Sessions.MarkerMirrors | app/middleware/sessions.py:100-120 | from an empty jar, over overlapping requests and expiries, the marker is there if and only if the session cookie holds the session of a user |
| Sessions.SessionKept | app/middleware/sessions.py:96-120 | the jar holds what the application left in the session if and only if some action marked the session or its unions add nothing to what the jar held |

## Left out

- Pagination: the ORM, and `datetime.max` as a stored value beyond the largest date. Values are integers or null.
- Subscriptions.Adapter.ListenLoop: a connection object starts without listeners each time it is taken from the pool; asyncpg is not part of this model. `stop` and `start` are not modelled apart from the shutdown of the queue.
- JobGroups.Barrier: holds for runs in which each job reports once; what other runs do is stated by `GroupRetries.FreeCallbackIff` and `GroupRetries.KeepsInvIff`. Groups made of `unique` definitions and a process that dies during an attempt are not modelled.
- Jobs: `DEAD` and `SCHEDULED` are not told apart from enqueued, since they depend on the clock and not on the row.
- Outbox: the Cloud Tasks and asyncio runners; `enqueue_pending`.
- EmailReplies.EmailMessage.Read: the regular expressions are parameters, apart from the one that splits off signature boundaries; the property `reply` is left out.
- Chat windows: `label`; which messages a run of the job selects, and what it writes to the search index.
- ChatBuckets.MergeThinDays: that the lists of messages are shared between the days and the buckets and extended in place is not captured, only their values. One run of the job is modelled; two runs that split one day reuse an id.
- Replication.EveryChangeOnce: a document is the set of its operations, so the order in which a CRDT waits for missing operations is not captured; the set of sessions is fixed; a broadcast or a save that raises is left out; awareness messages are left out.
- ScheduledSend.AtMostOnce: what the email client does with a mail it was handed is not modelled; going back to a draft is an event of the environment. Permissions are one condition of a fire.
- ScheduledDrafts.Tables.CreateDraft: two drafts started on one thread at the same moment, which no lock excludes, are not modelled.
- Chunking: the tokenizer, a function from an item to its number of tokens.
- BulkGrants.Grants.RunChain: the tables stay as they are during the chain and the users are found alike by every job; the events and indexing jobs of a grant are left out.
- HardDeletes.Table.DeleteOf: one workspace type; the other steps of deleting a user are left out.
- Topics.FromName: `str` of parameter values. Topics.PostgresNameValid: characters outside ASCII become one underscore each, as in the source.
- TaggedJson.CursorRoundTrip: printing and parsing of JSON text, and that `b64decode` skips characters outside its alphabet. Numbers are integers, keys are strings, sets hold scalars, and Python's `True == 1` in sets is not modelled.
- Base64.UrlBase64ToUint8Array: that `atob` skips whitespace.
- Sessions: the signature itself, nested values changed in place, websockets, and the attributes of cookies.
- Transactions.Context.RunTransaction: what the database does with the rows of nested transactions, and context variables of concurrent tasks.
- `_diff_fields`, which would add an easy member; `Job.reschedule` as more than a termination; `create_recurring_job_route`.
- `_cleanup_content` shrinks its own filter while it advances its offset, so it is not one bulk pass.
- Network, storage, LLM, OAuth, push and email delivery, templates, settings, logging, formatters and presenters.

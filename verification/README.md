# Board workflow, rate limits, streams and dashboards, verified

This project models the parts of the backend where several functions have to agree for a promise to
hold, and proves those promises for all inputs, runs or interleavings.

**Board.** `BoardModel` is one board's rows: tasks with their status and assignee, dependency edges,
tags, custom field rows, approvals with link rows, the event log, agents and the five board rules.
`TaskRules` and `ApprovalRules` say what each endpoint does to these rows, `TaskFacts` and
`TaskPermissions` what follows from that over a whole update path. `BoardSession` is the
imperative form: a session object with the persisted rows and the uncommitted ones, whose methods
change rows statement by statement in the order of the endpoints, raise refusals in the middle, commit,
read again and roll back. Every method is proved equal to the rules. `DependencyGraph` has the recursive cycle
search. `BoardRuns` splits a user's or worker's update at its commits (task, comment, event with
reconciliation) and where it reads its task again after the first one, and a creation at its two
commits, interleaves any number of requests and proves what every run keeps. `BoardHistory` and
`ReviewHistory` reason about whole histories of such runs. `BoardExceptions` and `ReviewExceptions`
say exactly when a rule of the board is broken, and on which boards and in which runs.

**Rate limiters.** `SlidingWindow` compares a bounded list with the unbounded log of attempts.
`RateLimiters` and `RedisLimiter` are the two limiter classes, each with that log as a ghost field.

**Event streams.** `EventStream` is the generator behind the task stream and the comment feed: a
time cursor, a set and a queue of 2000 ids.

**Dashboard.** `Calendar` is proleptic Gregorian arithmetic from year 1 on. `DashboardBuckets` and
`DashboardSeries` truncate, step, list buckets and lay grouped query results over them.

**Skills index.** `Json` is a JSON decoder that starts at a position. `StreamRules` defines step by
step what the streaming reader computes, and beside it what the whole text means. `StreamFacts`,
`StreamObjects` and `StreamIndex` relate the two. `StreamCuts` tells from the text and the lengths of
the reads how far the reader has read at each point, and `StreamPasses` which indexes it therefore
gets through. `StreamMeaning` compares its entries with those of the decoded value. `StreamingReader`
is the reader class.

**Preview.** `PayloadPreview` is the bounded preview of a webhook payload.

Five promises of the backend do not hold as they are worded, and each is proved with the exact
condition under which it does:

- A lead's PATCH that gives only dependencies can leave an active task blocked
  (`BoardRuns.LeadUpdateKeepsBlockedParkedIff`, on a board in
  `BoardExceptions.LeadLeavesBlockedTaskAtWork`).
- On a board that blocks status changes while an approval is pending, two kinds of update still change
  the status of such a task: a user's edit that leaves it blocked moves it to the inbox, and reopening
  a finished task parks the dependents that were at work, whatever approvals they wait for
  (`BoardExceptions.UpdateMovesHeldIff`, with a board for each kind). In interleaved runs the last
  commit of any edit of a task that was done does the same if another request has reopened it
  (`BoardExceptions.CommitMovesHeldIff`, `BoardExceptions.EditMovesHeldTask`).
- A task returned from review goes back to the agent that the log names last, and that need not be the
  one that moved it there: an update logs the status that it reads again after its first commit
  (`ReviewHistory.MovesAreLoggedIff`, `ReviewHistory.RefreshRecordsIff`, with runs in
  `ReviewExceptions`).
- A row that becomes visible to an event stream only after a newer one was sent is never sent, and
  these are the only rows that are lost (`EventStream.SentOnceIffCaught`).
- The streaming reader can refuse a valid index because of where the reads end. For one given way to
  cut `StreamIndex.IndexIsReadIff` says exactly which indexes of either form are read, and
  `StreamIndex.FileIsReadIff` says it for the reads of 16 * 1024 characters that are made of a file.
  For the array form `StreamIndex.EveryCutReadsIff` gives the indexes that are read for all cuts into
  reads of at least n characters; n = 1 is about arbitrary cuts.

Ids are natural numbers, times are integers or reals, and the current time is a parameter of every
operation that asks for it. New ids are parameters that the database has not used.

## Model

| member | source | states |
|---|---|---|
| DependencyGraph.CycleSearch.Dfs | backend/app/services/task_dependencies.py:116-127 | a depth-first visit answers yes only with a walk that repeats a node; otherwise the node and all below it are finished, the stack is restored and the finish order is topological |
| DependencyGraph.CycleSearch.Run | backend/app/services/task_dependencies.py:111-129 | the search over the board answers yes if and only if some walk from a listed node meets a node twice |
| DependencyGraph.LassoIffCycle | backend/app/services/task_dependencies.py:170-193 | on a graph whose edges stay among the listed nodes that is the same as having a cycle, so the recursive search decides acyclicity exactly |
| DependencyGraph.AcyclicHasSource | backend/app/services/task_dependencies.py:132-193 | what acyclicity is for: any non-empty set of tasks has one that waits for none of the set |
| TaskFacts.DependencyEdit | backend/app/api/tasks.py:2050-2084 | an accepted dependency edit gives exactly the requested set, inside the board, without self edge or cycle, touches no other task's edges, and changes nothing on a finished task |
| BoardSession.Session.ValidateDependencies | backend/app/services/task_dependencies.py:132-193 | the imperative validation, with its search object, refuses and accepts exactly as the rule on the rows before: self edge, missing tasks, cycle, in that order |
| BoardSession.Session.ReplaceDependencies | backend/app/services/task_dependencies.py:196-225 | replaces exactly the dependency rows of one task before any later rule runs |
| BoardSession.Session.LeadCheckRequest | backend/app/api/tasks.py:2020-2102 | a lead's payload is admitted or refused as specified, with comment, unknown fields, dependencies, tags and blockers checked in that order |
| BoardSession.Session.LeadApplyAssignment | backend/app/api/tasks.py:2105-2126 | a lead may assign nobody or a known agent that is neither a lead nor on another board, and changes only the assignee |
| BoardSession.Session.LeadApplyStatus | backend/app/api/tasks.py:2157-2200 | a lead may take a task only out of review, to done or back to the inbox, apart from the start shortcut; a return goes to the last agent that the log names and that may take it |
| BoardSession.Session.LastWorkerWhoMovedToReview | backend/app/api/tasks.py:2129-2154 | the walk over the newest recorded moves finds the first agent that may take the task back |
| BoardSession.Session.ApplyLeadUpdate | backend/app/api/tasks.py:2253-2343 | the whole lead path, statement by statement on the session, stores exactly the specified rows or refuses with the specified error |
| BoardSession.Session.ApplyWorkerUpdate | backend/app/api/tasks.py:2346-2426 | the same for a worker: own or unassigned tasks, allowed fields, lead-only status rule, comment for review, blockers |
| BoardSession.Session.ApplyUserUpdate | backend/app/api/tasks.py:2429-2498 | the same for a user, whose edit that leaves the task blocked is rewritten to an unassigned inbox task |
| BoardSession.Session.StoreRuledTask | backend/app/api/tasks.py:2660-2737 | the shared ending: fields, the three gates, hand-over to the lead, tags and custom fields, first commit |
| BoardSession.Session.ReconcileDependents | backend/app/api/tasks.py:456-534 | the loop over dependents equals one simultaneous step on the rows before: parks, events and order of events |
| TaskFacts.ReconcileEffect | backend/app/api/tasks.py:456-534 | reopening a finished task parks exactly its unfinished dependents and changes no other task; one level is enough |
| BoardSession.Session.UpdateFirstCommit | backend/app/api/tasks.py:1587-1648 | a refused update leaves tasks, edges, tags and custom values as they were, although the session had already changed some of them; an accepted one stores exactly the specified rows |
| BoardSession.Session.UpdateTaskRequest | backend/app/api/tasks.py:1587-1648 | all three commits of an update and the refresh after the first one, in turn; a refusal after any number of session changes rolls back to the rows before |
| BoardSession.Session.CommitComment | backend/app/api/tasks.py:2502-2521 | the comment of an update is its own commit |
| BoardSession.Session.CommitTransition | backend/app/api/tasks.py:2524-2550 | the event and the reconciliation are one commit, for the transition from the status that the update found to the one seen when the task was read again |
| BoardSession.Session.CreateTaskRequest | backend/app/api/tasks.py:1491-1584 | a created task is stored with its edges, tags and fields, or nothing is stored |
| BoardSession.Session.AdmitNewTask | backend/app/api/agent.py:816-845 | a lead's new task may be blocked only in the inbox and unassigned; an assignee must be known, no lead and not on another board |
| TaskFacts.CreateTaskEffect | backend/app/api/agent.py:816-860 | an uninterrupted creation touches one task, keeps the graph acyclic, parks the task if it is created blocked and logs its event |
| TaskFacts.StoreTaskEffect | backend/app/api/tasks.py:1504-1553 | the same of the first commit of a creation, which logs nothing yet |
| TaskFacts.LeadUpdateEffect | backend/app/api/tasks.py:2253-2343 | a lead never reopens a task nor transitions or assigns a blocked one, and finishes one only with every board condition met |
| TaskFacts.WorkerUpdateEffect | backend/app/api/tasks.py:2346-2426 | a worker's update leaves a blocked task parked or as it was, keeps all edges, and finishes one only with every board condition met |
| TaskFacts.UserUpdateEffect | backend/app/api/tasks.py:2429-2498 | after a user's update a blocked task is parked unless it was and stays done; finishing meets every board condition |
| TaskFacts.FirstCommitMovesHeldTaskIff | backend/app/api/tasks.py:276-301 | the first commit of an accepted update changes the status of the task it names, while an approval for it is pending on a board that forbids this, if and only if it is a user's edit that asks for no other status but leaves an active task blocked |
| BoardExceptions.UpdateMovesHeldIff | backend/app/api/tasks.py:276-301 | over the whole request and for every task held by a pending approval: an accepted update changes its status if and only if it is that rewritten edit of the task itself, or it takes a finished task out of done on which this task, which was at work, depends |
| BoardExceptions.CommitMovesHeldIff | backend/app/api/tasks.py:490-516 | for each single commit of any interleaved run: only such a first commit, and the last commit of an update that found its task done and, reading it again, not done, whoever reopened it, change the status of a held task |
| BoardExceptions.EditMovesHeldTask | backend/app/api/tasks.py:2736-2740 | a run in which the last commit of a title edit, which keeps its task done, sends a held task to the inbox because another request has reopened the task in between |
| BoardExceptions.ReopeningMovesHeldTask | backend/app/api/tasks.py:490-516 | a consistent board on which reopening task 1 moves task 2, which has a pending approval, to the inbox |
| BoardExceptions.NewDependencyMovesHeldTask | backend/app/api/tasks.py:2439-2444 | a consistent board on which a user's edit that adds a dependency moves a task with a pending approval to the inbox |
| TaskPermissions.LeadBringsAbout | backend/app/api/tasks.py:2253-2343 | a lead changes no title or details, makes no transition but out of review or a start with an assignment, gives the task only to workers here, and sets no start time |
| TaskPermissions.WorkerBringsAbout | backend/app/api/tasks.py:2346-2426 | a worker changes no title, details, tags or dependencies, changes a status only as asked, where the board allows it, on a free or own task, which then rests with the worker, the lead or nobody |
| TaskPermissions.UserBringsAbout | backend/app/api/tasks.py:2429-2498 | a user's edit does as asked if it leaves the task unblocked, and otherwise parks it whatever was asked, unless it was and stays done |
| TaskPermissions.TakerIsWorkerHere | backend/app/api/tasks.py:2146-2154 | a returned task goes to a worker here other than the acting lead |
| TaskPermissions.BoardLeadIs | backend/app/api/tasks.py:2553-2567 | reviewed tasks are handed to a lead of this board, if it has one |
| BoardRuns.CommitKeepsConsistent | backend/app/api/tasks.py:2736-2740 | every single commit and refresh of any request keeps the graph acyclic within the board, links consistent and at most one pending approval per task |
| BoardRuns.RunsStayConsistent | backend/app/services/task_dependencies.py:132-193 | so does every run, with the commits of different requests interleaved in any way |
| BoardRuns.SomeTaskCanProceed | backend/app/services/task_dependencies.py:170-193 | no run deadlocks on dependencies: while some task is unfinished, an unfinished task without open dependencies exists |
| BoardRuns.BlockedTasksParkedOrDue | backend/app/api/tasks.py:2736-2740 | in every interleaved run without a lead's dependency-only PATCH, an unfinished task with an unfinished dependency is parked, or an update that found that dependency done is still to park it, as it does unless it reads the dependency as done again |
| BoardRuns.QuietBoardParksBlockedTasks | backend/app/api/tasks.py:490-516 | whenever no update is under way, every blocked unfinished task is in the inbox, unassigned and without start time |
| BoardRuns.LeadUpdateKeepsBlockedParkedIff | backend/app/api/tasks.py:2270-2278 | the excluded step breaks this exactly when it is dependency-only, some new dependency is unfinished and the edited task is at work |
| BoardExceptions.LeadLeavesBlockedTaskAtWork | backend/app/api/tasks.py:2270-2278 | a consistent board and an accepted PATCH of a lead, with dependencies only, that leaves a task in progress blocked |
| BoardHistory.OnlyGatedUpdatesFinish | backend/app/api/tasks.py:220-260 | in any state only an update can finish a task, with no unfinished dependency, from review if that rule is on, and with an approved approval if that rule is on |
| BoardHistory.FinishedTasksWereReady | backend/app/api/tasks.py:2402-2414 | a task that becomes done, or is created done, has no unfinished dependency at that moment |
| BoardHistory.DoneTasksGainNoDependency | backend/app/api/tasks.py:2058-2063 | while a task stays done its dependencies only disappear |
| BoardHistory.OpenDependencyWasReopened | backend/app/api/tasks.py:2439-2444 | in every run, an unfinished dependency of a done task was done when the task last became done and was reopened later |
| ReviewHistory.ServeIsARun | backend/app/api/tasks.py:2736-2740 | an uninterrupted update or creation is one particular interleaving of commits and refreshes, so all run theorems apply to it |
| ReviewHistory.TransitionReviews | backend/app/api/tasks.py:2524-2542 | of everything that a transition logs, exactly a move into review by an agent matches the query for such moves |
| ReviewHistory.CommitRecorded | backend/app/api/tasks.py:2524-2550 | a commit of any request adds a move of a task into review to the log exactly if it is the last commit of an agent's update that found the task out of review and read it again in review; such records go only with the task |
| ReviewHistory.LogAgreesWithHistory | backend/app/api/tasks.py:2129-2154 | after every run, with commits and refreshes interleaved in any way, the log's record of moves into review is the sequence of those logged, agent by agent and in order of time |
| ReviewHistory.RefreshRecordsIff | backend/app/api/tasks.py:2736-2740 | what an agent's update reads again makes the log record its own move exactly if no other commit has taken the task out of review since, and a move that is not its own exactly if another commit has put it there |
| ReviewHistory.MovesAreLoggedIff | backend/app/api/tasks.py:2524-2550 | where moves of a task into review do not overlap, they always are those logged, in that order, and at most one that has not come to its last commit, if and only if every last commit logs its own update's move |
| ReviewHistory.UndisturbedIsTrue | backend/app/api/tasks.py:2736-2740 | that is so in every run in which no commit changes the status of the task between an agent's first commit and its refresh |
| ReviewHistory.ReturnGoesToLastLogged | backend/app/api/tasks.py:2192-2200 | after every interleaved run a lead's return from review assigns, among today's workers of the board, the agent that the log names last for a move into review, or nobody if there is none |
| ReviewHistory.ReturnGoesToLastWorker | backend/app/api/tasks.py:2192-2200 | that is the agent that most recently moved the task into review if such moves of it do not overlap, every last commit logs its own update's move and none is still to come |
| ReviewExceptions.MoveIsLost | backend/app/api/tasks.py:2736-2740 | a run from an empty board in which a worker's move into review is never logged, because a user takes the task back before the worker's request reads it again; a later return goes to nobody |
| ReviewExceptions.MoveIsAscribed | backend/app/api/tasks.py:2736-2740 | a run from an empty board in which a worker's edit of a custom field is logged as the move into review that a user has made in between; a return goes to that worker |
| ReviewHistory.LastTakerIs | backend/app/api/tasks.py:2129-2154 | what "most recent" means: eligible, and nobody eligible came later; none exactly if nobody is eligible |
| ApprovalRules.TasksOfAreConcerned | backend/app/services/approval_task_links.py:85-106 | the tasks loaded for an approval are exactly those it concerns through a link or, without links, its own task |
| ApprovalRules.ConflictsAreExact | backend/app/services/approval_task_links.py:144-205 | the query over links and the query over primary tasks without links together find exactly the requested tasks that another pending approval concerns, and no approval is found by both |
| ApprovalRules.CreateApprovalConcerns | backend/app/api/approvals.py:392-428 | a new approval concerns exactly the requested tasks and every other approval the same as before |
| ApprovalRules.CreateApprovalKeepsOnePending | backend/app/api/approvals.py:169-190 | creating an approval keeps at most one pending approval per task |
| ApprovalRules.UpdateApprovalKeepsOnePending | backend/app/api/approvals.py:449-470 | so does changing one, including back to pending |
| ApprovalRules.DeleteTaskConcerns | backend/app/api/tasks.py:1670-1688 | deleting a task makes no approval concern a task that it did not concern before |
| ApprovalRules.DeleteTaskKeepsOnePending | backend/app/api/tasks.py:1670-1688 | and so keeps at most one pending approval per task |
| ApprovalRules.DeletedApproval | backend/app/api/tasks.py:1670-1688 | an approval goes exactly when its primary task is deleted and no other link is left, and otherwise keeps its status and has its primary task among its links |
| BoardSession.Session.CreateApprovalRequest | backend/app/api/approvals.py:392-428 | the request stores exactly the specified rows, or refuses and stores none |
| BoardSession.Session.UpdateApprovalRequest | backend/app/api/approvals.py:439-470 | the same for a status change; the resolution time is set exactly when the new status is not pending |
| BoardSession.Session.DeleteTaskRequest | backend/app/api/tasks.py:1651-1711 | deleting table after table ends in the specified rows, and a missing task is refused without change |
| BoardSession.Session.MovePrimaryTasks | backend/app/api/tasks.py:1670-1688 | the loop that moves primary tasks or drops approvals equals one simultaneous step |
| TaskFacts.DeleteLeavesNoTrace | backend/app/api/tasks.py:1651-1711 | no event, fingerprint, link, edge, tag, custom value or approval names a deleted task |
| TaskFacts.DeleteKeepsTheRest | backend/app/api/tasks.py:1651-1711 | tasks, tags, field rows, edges, events, fingerprints and links that do not name it stay, an approval with another linked task survives with its primary task among its links, and nothing of a surviving approval changes but its primary task |
| CustomFields.StoreRows | backend/app/api/tasks.py:1141-1174 | the key by key loop stores, overwrites and deletes exactly what the payload as a whole asks for |
| CustomFields.SetForUpdate | backend/app/api/tasks.py:1115-1174 | unknown keys, invalid values and missing required fields are refused in that order on the effective values, otherwise the rows are the specified ones |
| CustomFields.SetForCreate | backend/app/api/tasks.py:1070-1112 | the same for a new task, where nulls store no row |
| CustomFields.Read | backend/app/api/tasks.py:1177-1221 | the read loop gives every bound field its stored row or else its default |
| CustomFields.ReadAfterUpdate | backend/app/api/tasks.py:1005-1023 | after an accepted write a reader sees new values, defaults of nulled fields and old readings elsewhere, and no required field reads null |
| CustomFields.ReadAfterCreate | backend/app/api/tasks.py:1070-1112 | a new task reads the payload where it gives a value and the defaults elsewhere |
| CustomFields.OtherRowsAfterUpdate | backend/app/api/tasks.py:1115-1174 | rows of other definitions stay as they were |
| SlidingWindow.BucketCountsLikeLog | backend/app/core/rate_limit.py:96-115 | the bounded list counts like the unbounded log, up to the limit, for every cutoff still to come |
| SlidingWindow.PrunedLengthDecides | backend/app/core/rate_limit.py:96-115 | fewer than the limit are left after pruning exactly when fewer than the limit attempts, blocked ones included, lie in the last window |
| SlidingWindow.AtMostMaxPerWindow | backend/app/core/rate_limit.py:88-115 | in any sequence of attempts, any half-open window, open on either side, holds at most the limit of allowed ones |
| SlidingWindow.ClosedWindowCanExceed | backend/app/core/rate_limit.py:96-115 | that bound is about half-open windows: for every limit there is a log with one more allowed attempt in a window closed on both sides |
| RateLimiters.InMemoryRateLimiter.SweepExpired | backend/app/core/rate_limit.py:80-86 | a sweep drops exactly the keys whose newest time is expired and leaves every other bucket, and the invariant that determines all later answers |
| RateLimiters.InMemoryRateLimiter.IsAllowed | backend/app/core/rate_limit.py:88-115 | for every run of non-decreasing times the answer is the unbounded log's, with or without a sweep, and no bucket exceeds the limit |
| RateLimiters.Slide | backend/app/core/rate_limit.py:96-115 | the pops from the front and the append are one pruning and one push |
| RedisLimiter.RemoveUpToPrunes | backend/app/core/rate_limit.py:34-35 | removal by score on the sorted set is pruning from the front |
| RedisLimiter.InsertNewest | backend/app/core/rate_limit.py:36-45 | an added newest score goes to the end whatever its member text is |
| RedisLimiter.ScriptSlides | backend/app/core/rate_limit.py:31-47 | the script does to the scores what the in-memory limiter does to its list, with the same answer |
| RedisLimiter.ExpiryIsLate | backend/app/core/rate_limit.py:31-47 | when the expiry time has passed, all scores are outside the window |
| RedisLimiter.RedisRateLimiter.ExpireKeys | backend/app/core/rate_limit.py:31-47 | expiry of keys keeps the invariant that determines all later answers: it is never observable |
| RedisLimiter.RedisRateLimiter.IsAllowed | backend/app/core/rate_limit.py:143-173 | the same answer by the same rule on the log; a server that is not reached allows and records nothing, a reply lost after the script ran allows and records the attempt |
| RedisLimiter.ServeBoth | backend/app/core/rate_limit.py:88-173 | given the same attempts at times that do not go back, both limiters answer alike forever, namely as the unbounded log does, and grant each key at most the limit in any half-open window |
| RedisLimiter.GrantedWithinLimit | backend/app/core/rate_limit.py:88-173 | among the answers to any attempts after any log, each key is granted at most the limit in any half-open window |
| RedisLimiter.BackendsAgree | backend/app/core/rate_limit.py:143-173 | given the same attempts, the sorted set's scores are the deque's contents |
| EventStream.EventGenerator.Poll | backend/app/api/tasks.py:1416-1440 | one poll, with its set and queue changed row by row, sends and remembers exactly as specified |
| EventStream.FeedSendsOnce | backend/app/api/activity.py:353-389 | one poll sends exactly the rows of its listing that were not sent before |
| EventStream.SentOnceIffCaught | backend/app/api/tasks.py:1397-1440 | after every poll the stream has sent, none twice and in order of time, exactly the rows that some poll could see while its cursor had not passed their time, although only 2000 ids are remembered |
| EventStream.ExactlyOnce | backend/app/api/tasks.py:1397-1440 | so every row visible since the start is sent exactly once if no row becomes visible only after a newer one was sent |
| EventStream.SecondPollRepeatsIff | backend/app/api/tasks.py:1404-1434 | the capacity is exact: polled again from the cursor on, in whatever order rows of one time come back, a row is sent twice if and only if more than 2000 rows share the newest time |
| Calendar.MonthsFollow | backend/app/api/metrics.py:121-126 | month after month, across leap years and year ends, no day is missing or counted twice |
| Calendar.BeforeIsElapsed | backend/app/api/metrics.py:129-135 | comparing date-times field by field compares elapsed time |
| Calendar.StampOfFromStamp | backend/app/api/metrics.py:112-120 | elapsed time survives the way to calendar fields and back |
| Calendar.FromStampOfStamp | backend/app/api/metrics.py:112-120 | and so do calendar fields the other way |
| Calendar.Shift | backend/app/api/metrics.py:94-101 | adding a duration moves elapsed time by it, and fails exactly before year 1 |
| DashboardBuckets.Truncation | backend/app/api/metrics.py:104-112 | an instant truncates to the start of the numbered hour, day, week or month that contains it |
| DashboardBuckets.Step | backend/app/api/metrics.py:115-126 | the step from a bucket start leads to the start of the next numbered bucket |
| DashboardBuckets.BucketsTile | backend/app/api/metrics.py:104-126 | the instants from a bucket start up to the next one are exactly those that truncate to it |
| DashboardBuckets.BuildBuckets | backend/app/api/metrics.py:129-135 | the loop ends and lists, in strictly increasing order, every bucket start from the one that holds the start of the range to its end and nothing else |
| DashboardBuckets.InstantHasOneBucket | backend/app/api/metrics.py:129-135 | each instant of the range truncates to exactly one listed bucket, the last one not after it |
| DashboardSeries.RangeEndsNow | backend/app/api/metrics.py:62-91 | a resolved range ends now and covers exactly the time that its key names |
| DashboardSeries.ComparisonPrecedes | backend/app/api/metrics.py:94-101 | the comparison range of such a range is as long and ends where that starts |
| DashboardSeries.RangesShareOnlyTheBound | backend/app/api/metrics.py:94-101 | the two ranges cover their union and share only that instant |
| DashboardSeries.NothingLost | backend/app/api/metrics.py:138-151 | the groups laid out over the buckets add up to the rows of the range: none lost, none twice |
| DashboardSeries.GroupedAt | backend/app/api/metrics.py:180-200 | a group missing from the query's result would have weighed nothing |
| DashboardSeries.SeriesFromMapping | backend/app/api/metrics.py:138-151 | one point for each bucket of the range, with the mapped value or zero |
| DashboardSeries.QuerySeries | backend/app/api/metrics.py:180-200 | each point weighs the rows of its bucket and all points together the rows of the range |
| DashboardSeries.WipSeriesFromMapping | backend/app/api/metrics.py:154-176 | one point for each bucket with the four mapped counts or zeros |
| DashboardSeries.QueryWip | backend/app/api/metrics.py:256-304 | after the two query results are merged, each column counts the tasks of its status bucket by bucket and adds up to those of the range |
| Json.DecodeLocal | backend/app/api/skills_marketplace.py:314-316 | a text that decodes to a value does so however it goes on after it, except that a number may go on |
| Json.PrefixOfObjectFails | backend/app/api/skills_marketplace.py:314-316 | no proper prefix of an object decodes |
| StreamingReader.StreamingJSONReader.FillBuffer | backend/app/api/skills_marketplace.py:281-289 | one read is appended, or the end of the file is noted |
| StreamingReader.StreamingJSONReader.SkipWhitespace | backend/app/api/skills_marketplace.py:297-309 | the skip, with its stop right after a fill, moves as specified and terminates |
| StreamingReader.StreamingJSONReader.DecodeValue | backend/app/api/skills_marketplace.py:311-326 | retrying after each further read decodes or fails as specified and terminates |
| StreamingReader.StreamingJSONReader.ReadArrayValues | backend/app/api/skills_marketplace.py:354-376 | the loop collects exactly the specified entries or fails, and terminates |
| StreamingReader.StreamingJSONReader.ReadSkillsFromObject | backend/app/api/skills_marketplace.py:378-431 | the same for the object form with its missing-comma and non-list branches |
| StreamingReader.StreamingJSONReader.ReadTopLevelEntries | backend/app/api/skills_marketplace.py:341-352 | entries that are returned are those of the whole text, and the outcome is that of the whole text exactly if the reads let the index through or it is refused anyway |
| StreamFacts.SkipStops | backend/app/api/skills_marketplace.py:297-309 | a skip stops at the next token or at white space with which the read just made begins, and nowhere else |
| StreamFacts.DecodeIsRight | backend/app/api/skills_marketplace.py:311-326 | a value decoded in pieces is that of the whole text or a number cut short, and every object of the whole text is decoded |
| StreamFacts.ArrayIsRight | backend/app/api/skills_marketplace.py:354-376 | for any cuts, entries of an array that are returned are those of the whole text |
| StreamFacts.ArrayIsComplete | backend/app/api/skills_marketplace.py:354-376 | no array is given up on if no blank read comes right before one that starts with white space, or if the array is tight for the length of the reads |
| StreamFacts.LooseArrayGivesUp | backend/app/api/skills_marketplace.py:297-309 | every array that is not tight for reads of n characters can be cut into such reads so that the reader fails |
| StreamObjects.ObjectIsRight | backend/app/api/skills_marketplace.py:378-431 | for any cuts, entries of an object index that are returned are those of the whole text |
| StreamIndex.NeverWrong | backend/app/api/skills_marketplace.py:341-352 | in both forms and for any cuts the reader never returns wrong entries |
| StreamIndex.EveryCutReadsIff | backend/app/api/skills_marketplace.py:285-309 | for every n, an accepted array index is read alike for all ways to cut it into reads of at least n characters, the last one excepted, if and only if it has at most 2n spaces before its opening bracket and every comma and the closing bracket comes at most n characters after the token before it ends, or after the n-th character of the text if that is later |
| StreamIndex.PaddedArrayExample | backend/app/api/skills_marketplace.py:285-309 | for every n, an empty array of 2n spaces that is refused when it is read n characters at a time |
| StreamCuts.PeekReads | backend/app/api/skills_marketplace.py:291-309 | a peek shows the next token exactly if that is no further than the end of the next read, and white space otherwise; how many reads it makes |
| StreamCuts.ValueReads | backend/app/api/skills_marketplace.py:311-326 | from what beginning of the text the next value is decoded, however much white space lies before it, told from the text and the lengths of the reads alone |
| StreamCuts.ClearShows | backend/app/api/skills_marketplace.py:297-309 | every token is shown if no blank read comes right before one that starts with white space |
| StreamPasses.ArrayReads | backend/app/api/skills_marketplace.py:354-376 | for any cuts, an accepted array is read exactly if each comma and the closing bracket is shown, and with which reads |
| StreamPasses.ObjectReadIff | backend/app/api/skills_marketplace.py:378-431 | for any cuts, the reader gets through an accepted object, from any point on, exactly if each comma, colon and closing brace is shown, no value is decoded from a text that ends within it, and a list whose bracket is not shown is JSON and has no comma behind it |
| StreamIndex.IndexIsReadIff | backend/app/api/skills_marketplace.py:341-431 | in whatever pieces an index of either form comes, the outcome is that of the whole text if and only if the text and the lengths of the reads let it through, or the text is refused anyway |
| StreamIndex.FileIsReadIff | backend/app/api/skills_marketplace.py:281-289 | the same for the reads that are made of a file: 16 * 1024 characters each, until the end |
| StreamIndex.ChunksShow | backend/app/api/skills_marketplace.py:281-309 | such reads end at every n-th character, and a token is shown exactly if it lies at most n characters behind what was read |
| StreamPasses.CutNumberGivesUp | backend/app/api/skills_marketplace.py:311-326 | a number that was decoded from a text that ends within it makes the object form fail |
| StreamIndex.CutNumberExample | backend/app/api/skills_marketplace.py:285-326 | for every n from 6 on, an object index that is right and is refused when its first read has n characters |
| StreamIndex.CutAfterSignExample | backend/app/api/skills_marketplace.py:311-326 | a read that ends within a number need not do harm: after the sign alone nothing decodes yet |
| StreamMeaning.JsonIndexMeans | backend/app/api/skills_marketplace.py:341-431 | from an index that is JSON the reader takes what its decoded value means, told from the value alone: the objects of the list, or of every `skills` list in turn |
| StreamMeaning.JsonIndexIsCoercedIff | backend/app/api/skills_marketplace.py:259-268 | and that is what the marketplace takes from the decoded value itself if and only if every list holds objects only, a `skills` list before another one is empty and a `skills` that is no list is the last member |
| PayloadPreview.PreviewMeaning | backend/app/api/agent.py:174-179 | a preview fits the limit, is the whole text unless flagged, and otherwise its beginning with dots at the end; flagged exactly if the text is longer than the limit |
| PayloadPreview.OneMoreThanLimitDecides | backend/app/api/agent.py:193-206 | a preview depends on no more than one character beyond the limit |
| PayloadPreview.LimitAloneDoesNotDecide | backend/app/api/agent.py:193-206 | and it does depend on that one |
| PayloadPreview.Collect | backend/app/api/agent.py:193-208 | the loop keeps the first limit + 1 characters of the encoder's output at most, whatever its pieces are |
| PayloadPreview.PayloadPreviewWithLimit | backend/app/api/agent.py:182-218 | the streamed preview is that of the whole text for any pieces; an encoder error counts only if it comes before the limit is passed |

## Left out

- `EventStream.SentOnceIffCaught`: holds for tables in which at most 2000 rows share a time; that limit is exact by `EventStream.SecondPollRepeatsIff`.
- `ReviewHistory.ReturnGoesToLastWorker`: for a task whose moves into review overlap only `ReviewHistory.ReturnGoesToLastLogged` speaks; both are about runs in which the last commits have distinct times in the order of the commits, since the query orders by time alone.
- `DashboardSeries.QuerySeries`: weights are integers; averages and rates of the other series are not sums and are only laid out by `DashboardSeries.SeriesFromMapping`.
- `StreamingReader.StreamingJSONReader.ReadArrayValues`: number values and strings are kept as written, and a duplicate key of an entry is kept twice; errors carry no message.
- Boards other than one: agents may belong to another board, but the rows of other boards, and approvals of theirs that name a task here, are not modelled.
- Which lead is found when a board has several: the least id, where the query has no order.
- Further plain fields of a task, such as priority and due date: they are stored like title and details.
- The order in which dependents' events are written within one reconciliation: by id.
- Limits below one of the rate limiters, for which the in-memory one fails on an empty deque; clock readings do not go backwards.
- The limits of Python's own JSON decoder: nesting depth and digits of an integer.
- The type and pattern check of a custom field value: each definition carries its outcome as a predicate.
- Ids found in an approval's payload: the normalised list of task ids is the input.
- Comments posted outside updates, blank comments (the schema turns them into none) and mentions.
- Agent records: created, moved and deleted by other services; a board's agents change here only by an action that sets them.
- Authentication, access checks and organisations: the actor is given as a user or an agent of the board.
- Notifications, agent wake-ups, gateway calls and webhooks: they change none of the modelled rows.
- What another request commits while a transaction is under way: a transaction with its reads is one atomic step, apart from the reading again after an update's first commit, which is a step of its own, and the one after a creation's, which is a step with the event.
- The year limit 9999 of Python's dates; years are unbounded above.
- Floating-point rounding: the limiter's clock and scores are reals.
- Uniqueness of the sorted set's member text, which the source gets from a random suffix.
- Median and rate indicators, pagination, listing endpoints, board memory and approval streams: they keep no state across calls.
- Installing, downloading and resolving skill packs after their entries were read.

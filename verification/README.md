# OddJob: verified models

OddJob runs jobs that applications put into SQL tables.  Many processes share the tables.  In each, a
coordinator per queue fetches jobs, hands them to workers and has a storage actor record what became of them.
The repository also carries the compiled WebSharper runtime of its web manager, with the trees, lists, hash
tables, sorting and routing code on which the manager relies.

This project models the parts of both that are hard to get right, and proves what they promise.

| modules | what they are about |
|---|---|
| `Messages`, `Coordinator`, `Mailboxes`, `MarkHistory`, `QueueProtocol`, `QueueInvariant`, `QueueSteps`, `QueueTheorems`, `QueueMarks`, `QueueDecisions`, `QueueRuns` | one queue: coordinator, workers, storage actor and rows, as steps over mailboxes; its invariant; what all runs keep, and one run in full |
| `JobTable`, `ClaimProtocol`, `ClaimTheorems`, `ClaimRuns`, `SqlStore` | the queue table and its statements; claims, reads, marks and insertions by any number of processes; runs that show how tight the lease is; the storage classes |
| `Sequences`, `JobJoin` | rebuilding jobs from the left-join product of three tables |
| `ExecutorShell` | starting queues and shutting them down |
| `Expressions`, `LikeRewriting` | predicates as expression trees, their combination and rewriting |
| `BalancedTree`, `FSharpCollections` | the balanced trees, and maps and sets over them |
| `LinkedLists`, `HashCollections`, `QuickSort` | the structures and the sort that change in place |
| `StringEncoding`, `Routes`, `Routers`, `RouterCollections`, `RouterLinks`, `RouterSoundness` | escaping, links, and router combinators |

Code that changes fields or arrays is modelled by classes and methods, and each method is tied to a function of
the old state; expressions and recursion are modelled by functions.  `dafny verify dfyconfig.toml` checks all
of it.

## Assumptions

- An SQL `UPDATE` is atomic and succeeds; a GUID is fresh; the clock is shared and never runs back.
- Worker and storage mailboxes are first in, first out.  The coordinator's mailbox hands out shutdown requests
  first and is otherwise first in, first out: that messages of equal priority keep their order is a property
  of the mailbox library.  The router may pick any worker.
- Among the processes on the tables, a mark is sent only for a job that a fetch has returned.
- A queue has one coordinator and is asked to shut down once, which is what `ExecutorShell` shows of the shell.
- Comparison functions are total preorders, equalities are equivalences, and hash functions give equal keys
  the same hash.
- What lies outside is a parameter: clock readings, GUIDs, row orders that a database may choose, outcomes of
  asks, the culture's case mapping, and what the platform reads from text that is no decimal number.

## What the code does differently from what one may expect

- A silent sweep does change the saturation counters when the queue is not saturated: it clears them, and a run
  of one queue with two jobs comes to that.
- The budget of a job with a negative maximum of retries is that of zero retries.
- The lease of a claim runs from the time a call took at its start, not from the claiming statement.  Two claims
  of a job are more than the lock timeout apart if the first claimed at the time it took; any delay can make it
  less.
- Removal can leave a balanced tree unbalanced.
- Of the LikeAny and LikeAll variants that ignore case only the first value is kept.
- Of an array in LikeAny or LikeAll only the constants inside its elements are kept.  An array without any is
  left to the database.  A captured local counts with the object that holds the locals: the plain variants
  throw, the others compare with that object's text.
- A malformed escape is refused exactly if it is cut short, or if its digits are zeros up to a last one that is
  none.  Others, such as `~1z`, are read as if a bad digit had the value -2.
- A null string is written like the text `null`; empty segments vanish from links, so the empty strings of an
  array come back last; a query argument is dropped if its value is not written as one segment.
- When routes are combined, the earlier query argument wins but the later method.
- The shell's disposal passes over a queue whose timer was never started, and stops at the first queue that does
  not answer.

## Model

| member | source | states |
|---|---|---|
| QueueTheorems.ShutdownFlushes | OddJob.Execution.Akka/JobQueueCoordinator.cs:44-66 | In every run with one shutdown request, once the requester hears QueueShutDown nothing is pending in any counter, mailbox or worker, every mark sent has been applied, and every job ever dispatched has ended its last attempt and shows that end in its row |
| QueueTheorems.ShutdownIsFinal | OddJob.Execution.Akka/JobQueueCoordinator.cs:44-66 | After that notice the coordinator sends no job to a worker and no mark to the store, whatever still happens |
| QueueTheorems.NoDoubleDispatch | OddJob.Execution.Akka/JobQueueCoordinator.cs:146-169 | No job id is in flight twice; when a job is handed to a worker, no request and no unread result for it exists |
| QueueTheorems.MarksAreOrdered | OddJob.Execution.Akka/JobQueueCoordinator.cs:146-169 | The mark that the store takes next is the first one sent and not yet applied; the history is an alternation of starts and ends for each job, although the worker is told before the store; each row shows the latest mark applied to it |
| QueueMarks.EndsFollowStarts | OddJob.Execution.Akka/JobQueueCoordinator.cs:81-110 | Every success, retry or failure mark sent follows a start of its job with no other mark of that job in between, except failure marks that a dispatch sent, at the step named, because the job's type was missing |
| QueueMarks.ResultsFollowStarts | OddJob.Execution.Akka/JobQueueCoordinator.cs:81-110 | Whenever a success or a failure of a job is in the coordinator's mailbox, the latest mark planned for the job is its start |
| QueueMarks.AllExplained | OddJob.Execution.Akka/JobQueueCoordinator.cs:146-169 | Every failure mark planned in a run ends an attempt, or was planned by a dispatch of a job with a missing type |
| QueueDecisions.FailureIsDecided | OddJob.Execution.Akka/JobQueueCoordinator.cs:81-110 | In every run, when the coordinator takes a failed job, it puts the job back for retry if its row's retry count is below its maximum, and fails it for good otherwise; all retries of the job are applied by then |
| QueueDecisions.FailedUsedItsBudget | OddJob.Execution.Akka/JobQueueCoordinator.cs:81-110 | In every run, a job that was failed although its type was there has a retry count of exactly max(0, MaxRetries), then and ever after |
| QueueDecisions.SweepAsksExactly | OddJob.Execution.Akka/JobQueueCoordinator.cs:118-197 | In every run, a sweep asks for as many jobs as there are workers if and only if fewer than twice that many are queued, running or unread; otherwise the counters, the saturation start and the silent sweep follow the message and the settings |
| QueueDecisions.WorkerIsToldFirst | OddJob.Execution.Akka/JobQueueCoordinator.cs:164-165 | In every run and for every job, no more start marks were sent than a worker was told of the job: the worker hears of an attempt first |
| QueueTheorems.PendingIsExact | OddJob.Execution.Akka/JobQueueCoordinator.cs:118-197 | PendingItems is exactly the requests queued or running plus the results not read, and at most 3 * WorkerCount - 1 when there is a worker |
| QueueTheorems.RetryBudget | OddJob.Execution.Akka/JobQueueCoordinator.cs:81-110 | A row's retry count never exceeds max(0, MaxRetries), a row in Retry passes the count test of the fetch, and a job is dispatched at most max(0, MaxRetries) + 1 times |
| QueueTheorems.DispatchesAreBounded | OddJob.Execution.Akka/JobQueueCoordinator.cs:81-110 | All dispatches of a run together are bounded by the budgets of the jobs in the queue |
| QueueTheorems.NothingIsStranded | OddJob.Storage.SQL.Common/BaseSqlJobQueueManager.cs:300-314 | A published row in New or Retry is claimable, as it stands, from a due time that its own columns give |
| QueueSteps.StepInv | OddJob.Execution.Akka/JobQueueCoordinator.cs:31-197 | Every step of coordinator, workers, store and surroundings keeps the invariant that ties counters, mailboxes, replies, marks and rows together |
| QueueSteps.RunInv | OddJob.Execution.Akka/JobQueueCoordinator.cs:31-197 | The invariant holds in every state of every run |
| MarkHistory.RunsBoundedByRetries | OddJob.Execution.Akka/JobQueueCoordinator.cs:85-100 | In an ordered history a job's starts exceed its retries by at most one |
| MarkHistory.DispatchesBounded | OddJob.Execution.Akka/JobQueueCoordinator.cs:85-100 | The starts in a history are bounded by the sum of the per-job bounds |
| Coordinator.JobQueueCoordinator.Receive | OddJob.Execution.Akka/JobQueueCoordinator.cs:31-116 | For each message, which fields change to what and which effects are performed: retry exactly below the maximum, shutdown answered when the last worker is down, sweeps ignored while shutting down; and that this is the step function of the protocol |
| Coordinator.JobQueueCoordinator.HandleSweep | OddJob.Execution.Akka/JobQueueCoordinator.cs:118-197 | Below twice as many pending jobs as workers a sweep clears the saturation and asks, and the jobs that come are dispatched and counted; from there on a pulse counts, keeping the first saturation time, and the sweep goes on silently only if it is to be aggressive |
| Coordinator.JobQueueCoordinator.Dispatch | OddJob.Execution.Akka/JobQueueCoordinator.cs:146-169 | The loop over fetched jobs counts exactly those with a type and performs their effects in order |
| Coordinator.DispatchExactly | OddJob.Execution.Akka/JobQueueCoordinator.cs:146-169 | The effects of a dispatch are, job by job, a request to a worker and then the start mark, or the failure mark alone where the type is missing |
| Coordinator.SilentSweepCounters | OddJob.Execution.Akka/JobQueueCoordinator.cs:118-197 | A silent sweep never raises a saturation counter, and leaves all counters alone exactly if the queue is saturated or the counters are already clear |
| QueueRuns.SilentSweepClears | OddJob.Execution.Akka/JobQueueCoordinator.cs:118-197 | A run that saturates, counts a saturated pulse, drains, and ends in a silent sweep that clears both saturation counters |
| Messages.NextIndex | OddJob.Execution.Akka/ShutdownPriorityMailbox.cs:14-24 | The mailbox hands out the first shutdown request if there is one, and the first message otherwise |
| Messages.JobWorkerActor.Receive | OddJob.Execution.Akka/JobWorkerActor.cs:16-33 | A worker answers every request and every shutdown with exactly one reply, and nothing else |
| Messages.JobWorkerActor.RunJob | OddJob.Execution.Akka/JobWorkerActor.cs:34-45 | One reply per request: success if the job returns, failure if it throws |
| ExecutorShell.BaseJobExecutorShell.StartJobQueue | OddJob.Execution.Akka/JobExecutorShell.cs:72-105 | When a queue is added to either dictionary, which exception is raised otherwise, and whether a coordinator was created and scheduled; a refused timer leaves a coordinator without one |
| ExecutorShell.BaseJobExecutorShell.ShutDownQueue | OddJob.Execution.Akka/JobExecutorShell.cs:143-184 | Both dictionaries forget the queue on every path; its coordinator gets a cancelled timer, one shutdown request and, only if it answered, a poison pill; an unknown queue is an error |
| ExecutorShell.BaseJobExecutorShell.Dispose | OddJob.Execution.Akka/JobExecutorShell.cs:185-193 | The queues with a timer are shut down one by one: all of them if all answer, otherwise up to and including the first that does not, which raises the exception; in both cases the dictionaries forget exactly these, and each of their coordinators, and no other, gets its shutdown; queues without a timer are passed over |
| ExecutorShell.OneRequest | OddJob.Execution.Akka/JobExecutorShell.cs:143-184 | No coordinator is ever asked twice to shut down, a running one not at all, and a pulsed one only after its timer was cancelled |
| ClaimProtocol.ClaimExclusivity | OddJob.Storage.SQL.Common/BaseSqlJobQueueManager.cs:289-378 | However claims, reads, marks and insertions of any number of processes interleave, two calls return the same job only if between their claims the job was put back for retry, or the later claim came more than the lock timeout after the earlier call took the time; if no third claim of it lies between, even the later call's threshold time did; and if the earlier call claimed at the time it took, the claims are more than the lock timeout apart |
| ClaimRuns.DelayShortensLease | OddJob.Storage.SQL.Common/BaseSqlJobQueueManager.cs:289-342 | For every positive delay between taking the time and claiming, a run in which two calls return the same job although their claims are no further apart than the lock timeout |
| ClaimRuns.OlderLockInBetween | OddJob.Storage.SQL.Common/BaseSqlJobQueueManager.cs:289-342 | A run in which, with a third claim in between, a call claims a job although by its own threshold time the first claim's lease still lasts |
| ClaimProtocol.FetchIsBounded | OddJob.Storage.SQL.Common/BaseSqlJobQueueManager.cs:327-342 | A call returns at most fetchSize jobs, and none twice |
| ClaimProtocol.SafePublication | OddJob.Storage.SQL.Common/BaseSqlJobQueueAdder.cs:130-167 | A returned job was published with all its parameter and generic rows in place, and comes back as inserted if it can be read at all |
| ClaimProtocol.StepInv | OddJob.Storage.SQL.Common/BaseSqlJobQueueManager.cs:289-378 | Every statement of every process keeps the invariant of leases, lock GUIDs, side rows and returned batches |
| ClaimProtocol.RunInv | OddJob.Storage.SQL.Common/BaseSqlJobQueueManager.cs:289-378 | The invariant holds in every state of every run |
| ClaimTheorems.ClaimsTheDue | OddJob.Storage.SQL.Common/BaseSqlJobQueueManager.cs:297-337 | Whatever the tables hold, a claim takes only rows of the queues asked for that are New or Retry, whose start time and retry wait are over, with a retry left and no live lock; it passes over such a row only for fetchSize others, none with a later date; and it changes only the lock of the rows it takes |
| ClaimTheorems.ReturnedWereDue | OddJob.Storage.SQL.Common/BaseSqlJobQueueManager.cs:289-345 | In every run, every job that a call returns was such a row when this call claimed it |
| ClaimTheorems.ReturnedAsAdded | OddJob.Storage.SQL.Common/BaseSqlJobQueueManager.cs:289-345 | In every run, a job that was added and is returned later comes back with the queue, method, type, start time and retry settings it was given, and to no call that took the time before its start time |
| ClaimTheorems.RetryWaits | OddJob.Storage.SQL.Common/BaseSqlJobQueueManager.cs:364-378 | In every run, a job put back for retry at time t is claimed by no call before t plus its retry wait, whatever happens in between |
| JobTable.ClaimedAreHeld | OddJob.Storage.SQL.Common/BaseSqlJobQueueManager.cs:328-337 | With a fresh GUID, reading by GUID finds exactly the rows that the claim wrote |
| JobTable.TakeExists | OddJob.Storage.SQL.Common/BaseSqlJobQueueManager.cs:300-327 | The ordered and limited subquery of the claim always has a result |
| JobTable.EligibleAreDue | OddJob.Storage.SQL.Common/BaseSqlJobQueueManager.cs:300-314 | The claim's WHERE clause selects exactly the rows that have nothing to wait for, condition by condition |
| JobTable.PassedOver | OddJob.Storage.SQL.Common/BaseSqlJobQueueManager.cs:300-327 | A row that could be claimed is left out only if the claim is full, with rows whose dates are not later; rows without a date come first |
| JobTable.MostRecentIs | OddJob.Storage.SQL.Common/BaseSqlJobQueueManager.cs:315-322 | The date to order by is the later of creation and last attempt, or the one there is |
| JobTable.MarkedExactly | OddJob.Storage.SQL.Common/BaseSqlJobQueueManager.cs:51-76 | For all four marks: no row comes or goes, no other row changes, and in the marked row status, retry count, last attempt and lock time become what they should while all other columns stay |
| SqlStore.BaseSqlJobQueueManager.GetJobs | OddJob.Storage.SQL.Common/BaseSqlJobQueueManager.cs:289-345 | Undisturbed, a call claims the oldest rows that are due, up to fetchSize, and returns exactly these, once each, with their rows as claimed; it changes nothing but their locks |
| SqlStore.BaseSqlJobQueueManager.MarkJobSuccess | OddJob.Storage.SQL.Common/BaseSqlJobQueueManager.cs:51-62 | The row it hits becomes Processed and unlocked and is otherwise unchanged, as are all other rows |
| SqlStore.BaseSqlJobQueueManager.MarkJobFailed | OddJob.Storage.SQL.Common/BaseSqlJobQueueManager.cs:65-76 | The row it hits becomes Failed and unlocked and is otherwise unchanged, as are all other rows |
| SqlStore.BaseSqlJobQueueManager.MarkJobInProgress | OddJob.Storage.SQL.Common/BaseSqlJobQueueManager.cs:347-360 | The row it hits becomes InProgress, unlocked and stamped with the present time, and is otherwise unchanged, as are all other rows |
| SqlStore.BaseSqlJobQueueManager.MarkJobInRetryAndIncrement | OddJob.Storage.SQL.Common/BaseSqlJobQueueManager.cs:364-378 | The row it hits becomes Retry with one more retry, unlocked and stamped with the present time, not the time passed in; all else is unchanged |
| SqlStore.ReadsChosen | OddJob.Storage.SQL.Common/BaseSqlJobQueueManager.cs:336-342 | The read returns every claimed row exactly once and nothing else, in whatever order the product arrives |
| SqlStore.BaseSqlJobQueueAdder.AddJobImpl | OddJob.Storage.SQL.Common/BaseSqlJobQueueAdder.cs:130-167 | After the ordered writes there is one more row: published, with each column as the job gives it or as an untouched job has it, and with the whole definition in the side tables, whatever else they hold |
| SqlStore.BaseSqlJobQueueAdder.AddJobs | OddJob.Storage.SQL.Common/BaseSqlJobQueueAdder.cs:33-42 | After the loop every job of the batch is published and complete, and no other row has changed |
| SqlStore.JobQueueLayerActor.Receive | OddJob.Execution.Akka/JobQueueLayerActor.cs:26-77 | Marks are applied without a reply, fetches and shutdowns are answered once each in order, anything else is left unhandled |
| JobJoin.JoinReconstructs | OddJob.Storage.SQL.Common/BaseSqlJobQueueManager.cs:434-470 | For any jobs with any numbers of parameters and generic types and any order of the joined rows, each selected job comes back once, with its row, and with its arguments and generic types as inserted exactly if they can be read |
| JobJoin.ArgsComeBack | OddJob.Storage.SQL.Common/BaseSqlJobQueueManager.cs:453-459 | The rebuilt arguments are the inserted ones, in order and without duplicates, if and only if all types are named and the ordinals strictly ascend; this is the serializable variant of the query, ordinals included |
| JobJoin.GenericsComeBack | OddJob.Storage.SQL.Common/BaseSqlJobQueueManager.cs:425-429 | The rebuilt generic types are the inserted ones if and only if all are named |
| JobJoin.CreateJobDefinition | GlutenFree.OddJob.Serializable/SerializableJobCreator.cs:22-46 | A definition created from a captured call numbers its arguments from 0 and so can always be read back |
| JobJoin.ParamData | OddJob.Storage.SQL.Common/BaseSqlJobQueueAdder.cs:94-105 | One parameter row for each argument, in order, with its ordinal, value, type and name |
| JobJoin.GenericData | OddJob.Storage.SQL.Common/BaseSqlJobQueueAdder.cs:107-116 | One generic row for each type, numbered as they come |
| JobJoin.ProductMember | OddJob.Storage.SQL.Common/BaseSqlJobQueueManager.cs:436-442 | What belongs to the left-join product, a default row standing in for an unmatched side |
| Expressions.SwapMeans | GlutenFree.Linq2Db.Helpers/SwapVisitor.cs:13-16 | Substitution lemma: swapping parameters is evaluating with the other parameter's value, if neither is bound inside |
| Expressions.CombineMeans | GlutenFree.Linq2Db.Helpers/ExpressionHelpers.cs:9-32 | The combined predicate is the conjunction or disjunction of the two, exceptions and short circuits included |
| Expressions.CombineAllMeans | GlutenFree.Linq2Db.Helpers/ExpressionHelpers.cs:9-32 | Predicates added one by one to an initially null expression mean all, or any, of them |
| LikeRewriting.VisitMeans | GlutenFree.Linq2Db.Helpers/LikeAnyExpressionReplacer.cs:18-105 | For every expression tree in which the lists of the calls are members, arrays of constants, or anything without constants in it, and the first value suffices where case is ignored, the tree that the visitor returns has the value of the one it was given, in every environment, exceptions included |
| LikeRewriting.VisitThrowsExactly | GlutenFree.Linq2Db.Helpers/LikeAnyExpressionReplacer.cs:18-105 | For every expression tree, the visitor throws if and only if a call that it comes to has a list that cannot be run or a value that cannot be stored |
| LikeRewriting.CallsAreReplaced | GlutenFree.Linq2Db.Helpers/LikeAnyExpressionReplacer.cs:18-105 | Where every call asks about a member and its list has values, no call is left in what the visitor returns |
| LikeRewriting.ArrayCallExactly | GlutenFree.Linq2Db.Helpers/LikeAnyExpressionReplacer.cs:18-105 | For any array of texts with text constants in it: the call asks about all elements, the rewritten call about the constants kept |
| LikeRewriting.FlatArrayExactly | GlutenFree.Linq2Db.Helpers/LikeAnyExpressionReplacer.cs:18-105 | For an array of text constants and elements without constants, the rewritten call agrees with the call at a text if and only if a value kept decides there or no element does |
| LikeRewriting.FoundInside | GlutenFree.Linq2Db.Helpers/GetValuesExpressionReplacer.cs:10-21 | In an array the constant inside a converted element is found in place of the element; a text that has the one and not the other tells the two calls apart |
| LikeRewriting.CallStays | GlutenFree.Linq2Db.Helpers/LikeAnyExpressionReplacer.cs:30-51 | A call over a list without constants is left as it is |
| LikeRewriting.CapturedLocals | GlutenFree.Linq2Db.Helpers/GetValuesExpressionReplacer.cs:10-21 | With a captured local in an array the plain variants throw, and the others compare with the text of the object that holds the local, if it comes first |
| LikeRewriting.PlainChainMeans | GlutenFree.Linq2Db.Helpers/LikeAnyExpressionReplacer.cs:55-92 | For LikeAny and LikeAll the chain of comparisons has the value of the call over any list |
| LikeRewriting.FirstValueSuffices | GlutenFree.Linq2Db.Helpers/LikeAnyExpressionReplacer.cs:76-91 | The variants that ignore case keep only the first value; this is right for every text if and only if each value contains the first (LikeAny), or is contained in it (LikeAll) |
| LikeRewriting.FoldedChainIsFirst | GlutenFree.Linq2Db.Helpers/LikeAnyExpressionReplacer.cs:76-91 | The chain of a variant that ignores case is the comparison with the first value alone |
| LikeRewriting.LikeMeans | GlutenFree.Linq2Db.Helpers/ExprHelpers.cs:8-36 | The reference meaning: some, or every, listed text occurs in the text, after changing the case where asked |
| LikeRewriting.LikeMeansPlainly | GlutenFree.Linq2Db.Helpers/ExprHelpers.cs:8-36 | The same in plain words: some, or every, listed text lies within the text, as they are, in lower case or in upper case |
| LikeRewriting.ValuesAreRight | GlutenFree.Linq2Db.Helpers/LikeAnyExpressionReplacer.cs:36-51 | For members and for arrays of constants, the values taken when the visitor runs are the list's values |
| LikeRewriting.DroppedElement | GlutenFree.Linq2Db.Helpers/GetValuesExpressionReplacer.cs:10-21 | For example, an element that is not a constant is lost from LikeAny, and with it the match it gives |
| LikeRewriting.BuildChain | GlutenFree.Linq2Db.Helpers/LikeAnyExpressionReplacer.cs:55-92 | The accumulating loop computes the chain, or fails where a value cannot be stored |
| BalancedTree.Lookup | GlutenFree.OddJob.Manager.Presentation.WS/Scripts/WebSharper/WebSharper.Collections.js:99-114 | The loop descends as the recursive definition does |
| BalancedTree.DescendPlugs | GlutenFree.OddJob.Manager.Presentation.WS/Scripts/WebSharper/WebSharper.Collections.js:99-114 | Putting the subtree found back under its spine gives the tree again |
| BalancedTree.DescendFinds | GlutenFree.OddJob.Manager.Presentation.WS/Scripts/WebSharper/WebSharper.Collections.js:99-114 | In a search tree the lookup stops where the element belongs: all before it is below, all after it above |
| BalancedTree.Rebuild | GlutenFree.OddJob.Manager.Presentation.WS/Scripts/WebSharper/WebSharper.Collections.js:86-98 | The loop over the spine computes the recursive rebuild; no field of null is read, on trees of any shape with exact fields |
| BalancedTree.RebuildKeeps | GlutenFree.OddJob.Manager.Presentation.WS/Scripts/WebSharper/WebSharper.Collections.js:86-98 | Rebuilding keeps elements and order for spines and subtrees of any shape |
| BalancedTree.RebuildBalances | GlutenFree.OddJob.Manager.Presentation.WS/Scripts/WebSharper/WebSharper.Collections.js:86-98 | If the tree was balanced and the subtree grew by at most one level, the rebuilt tree is balanced |
| BalancedTree.PutContents | GlutenFree.OddJob.Manager.Presentation.WS/Scripts/WebSharper/WebSharper.Collections.js:79-85 | Insertion keeps the search order, replaces the element equal to the key if there is one, keeps all others, and counts exactly |
| BalancedTree.PutBalances | GlutenFree.OddJob.Manager.Presentation.WS/Scripts/WebSharper/WebSharper.Collections.js:79-85 | Insertion keeps trees balanced |
| BalancedTree.RemoveContents | GlutenFree.OddJob.Manager.Presentation.WS/Scripts/WebSharper/WebSharper.Collections.js:71-78 | Removal keeps the search order, drops exactly the element equal to the key, and counts exactly, whatever the shape of the tree |
| BalancedTree.RemoveBalancedExactly | GlutenFree.OddJob.Manager.Presentation.WS/Scripts/WebSharper/WebSharper.Collections.js:71-78 | On a balanced tree a removal never rotates, so the balance survives if and only if no subtree beside the path is too tall for what replaced the node |
| BalancedTree.RemoveMayUnbalance | GlutenFree.OddJob.Manager.Presentation.WS/Scripts/WebSharper/WebSharper.Collections.js:71-78 | A four-element balanced tree that a removal leaves unbalanced |
| BalancedTree.TryFindFinds | GlutenFree.OddJob.Manager.Presentation.WS/Scripts/WebSharper/WebSharper.Collections.js:51-63 | The lookup finds the element equal to the key, if and only if there is one |
| BalancedTree.BuildKeeps | GlutenFree.OddJob.Manager.Presentation.WS/Scripts/WebSharper/WebSharper.Collections.js:122-126 | Building from an array gives exactly these elements in order |
| BalancedTree.BuildIsBalanced | GlutenFree.OddJob.Manager.Presentation.WS/Scripts/WebSharper/WebSharper.Collections.js:122-126 | Building from any array gives a balanced tree, as low as its size allows |
| BalancedTree.BuildHalves | GlutenFree.OddJob.Manager.Presentation.WS/Scripts/WebSharper/WebSharper.Collections.js:122-126 | The root is the middle element, the lower of two, and half of the others is on either side |
| BalancedTree.BalancedIsDense | GlutenFree.OddJob.Manager.Presentation.WS/Scripts/WebSharper/WebSharper.Collections.js:165-169 | A balanced tree of height h has at least Fib(h + 2) - 1 elements |
| BalancedTree.ExactSizes | GlutenFree.OddJob.Manager.Presentation.WS/Scripts/WebSharper/WebSharper.Collections.js:165-169 | The height and count fields are exact |
| BalancedTree.GenLoop | GlutenFree.OddJob.Manager.Presentation.WS/Scripts/WebSharper/WebSharper.Collections.js:129-159 | The generator's loop computes its recursive definition |
| BalancedTree.EnumerateIsInorder | GlutenFree.OddJob.Manager.Presentation.WS/Scripts/WebSharper/WebSharper.Collections.js:127-164 | Enumeration yields the elements in order, and in reverse order when flipped |
| FSharpCollections.AddRefines | GlutenFree.OddJob.Manager.Presentation.WS/Scripts/WebSharper/WebSharper.Collections.js:265-268 | Adding to the tree is updating the finite map, and keeps balanced trees balanced |
| FSharpCollections.RemoveRefines | GlutenFree.OddJob.Manager.Presentation.WS/Scripts/WebSharper/WebSharper.Collections.js:235-238 | Removing from the tree is removing from the finite map |
| FSharpCollections.LookupRefines | GlutenFree.OddJob.Manager.Presentation.WS/Scripts/WebSharper/WebSharper.Collections.js:226-264 | TryFind and ContainsKey answer as the finite map does |
| FSharpCollections.EnumerationRefines | GlutenFree.OddJob.Manager.Presentation.WS/Scripts/WebSharper/WebSharper.Collections.js:216-254 | The count is the map's size; the enumeration lists each entry once, by ascending key |
| FSharpCollections.RunRefines | GlutenFree.OddJob.Manager.Presentation.WS/Scripts/WebSharper/WebSharper.Collections.js:207-285 | From any tree that stands for a finite map, any sequence of additions and removals leads to a tree that stands for the map changed likewise |
| FSharpCollections.AddsStayBalanced | GlutenFree.OddJob.Manager.Presentation.WS/Scripts/WebSharper/WebSharper.Collections.js:60-126 | A tree built from any ordered array of entries and changed by any additions stands for the map changed likewise and is balanced, hence logarithmic in height |
| FSharpCollections.BuiltRepresents | GlutenFree.OddJob.Manager.Presentation.WS/Scripts/WebSharper/WebSharper.Collections.js:122-126 | The tree built from the ordered entries of a finite map stands for that map and is balanced |
| FSharpCollections.SetRefines | GlutenFree.OddJob.Manager.Presentation.WS/Scripts/WebSharper/WebSharper.Collections.js:419-476 | Add, Remove and Contains of sets act as on a finite set |
| FSharpCollections.SetExtremes | GlutenFree.OddJob.Manager.Presentation.WS/Scripts/WebSharper/WebSharper.Collections.js:423-468 | Count is the set's size; minimum and maximum exist exactly for nonempty sets and bound every element |
| LinkedLists.LinkedList.constructor | GlutenFree.OddJob.Manager.Presentation.WS/Scripts/WebSharper/WebSharper.Collections.js:767-791 | The loop over a collection builds a well-linked list of its elements |
| LinkedLists.LinkedList.AddAfter | GlutenFree.OddJob.Manager.Presentation.WS/Scripts/WebSharper/WebSharper.Collections.js:739-753 | The new node sits behind the given one in both directions; ends and count follow |
| LinkedLists.LinkedList.AddBefore | GlutenFree.OddJob.Manager.Presentation.WS/Scripts/WebSharper/WebSharper.Collections.js:724-738 | The new node sits before the given one in both directions; ends and count follow |
| LinkedLists.LinkedList.AddLast | GlutenFree.OddJob.Manager.Presentation.WS/Scripts/WebSharper/WebSharper.Collections.js:706-714 | One more element at the end, on empty lists too |
| LinkedLists.LinkedList.AddFirst | GlutenFree.OddJob.Manager.Presentation.WS/Scripts/WebSharper/WebSharper.Collections.js:715-723 | One more element at the front, on empty lists too |
| LinkedLists.LinkedList.RemoveNode | GlutenFree.OddJob.Manager.Presentation.WS/Scripts/WebSharper/WebSharper.Collections.js:651-659 | The node is gone from both directions; ends and count follow |
| LinkedLists.LinkedList.Remove | GlutenFree.OddJob.Manager.Presentation.WS/Scripts/WebSharper/WebSharper.Collections.js:645-650 | The first occurrence of the value is removed, and the result says whether there was one |
| LinkedLists.LinkedList.RemoveFirst | GlutenFree.OddJob.Manager.Presentation.WS/Scripts/WebSharper/WebSharper.Collections.js:641-644 | The first element goes; an empty list raises an exception and is unchanged |
| LinkedLists.LinkedList.RemoveLast | GlutenFree.OddJob.Manager.Presentation.WS/Scripts/WebSharper/WebSharper.Collections.js:637-640 | The last element goes; an empty list raises an exception and is unchanged |
| LinkedLists.LinkedList.Find | GlutenFree.OddJob.Manager.Presentation.WS/Scripts/WebSharper/WebSharper.Collections.js:676-687 | The first node with the value, or null if there is none |
| LinkedLists.LinkedList.FindLast | GlutenFree.OddJob.Manager.Presentation.WS/Scripts/WebSharper/WebSharper.Collections.js:664-675 | The last node with the value, found from the end, or null if there is none |
| LinkedLists.LinkedList.Contains | GlutenFree.OddJob.Manager.Presentation.WS/Scripts/WebSharper/WebSharper.Collections.js:688-699 | True exactly for the values of the list |
| LinkedLists.LinkedList.Clear | GlutenFree.OddJob.Manager.Presentation.WS/Scripts/WebSharper/WebSharper.Collections.js:700-705 | The list is empty and well linked |
| LinkedLists.LinkedListEnumerator.MoveNext | GlutenFree.OddJob.Manager.Presentation.WS/Scripts/WebSharper/WebSharper.Collections.js:617-621 | Stepping visits the elements in order, says when the end is passed, and fails beyond it |
| LinkedLists.ToArray | GlutenFree.OddJob.Manager.Presentation.WS/Scripts/WebSharper/WebSharper.Main.js:2472-2496 | Listing what the enumerator gives, until the end, gives the elements in order |
| LinkedLists.OneSequence | GlutenFree.OddJob.Manager.Presentation.WS/Scripts/WebSharper/WebSharper.Collections.js:636-762 | The links of a list represent one sequence only, forwards and backwards |
| LinkedLists.ChainInserted | GlutenFree.OddJob.Manager.Presentation.WS/Scripts/WebSharper/WebSharper.Collections.js:724-753 | Changing one link of each neighbour inserts a node into the doubly linked chain |
| LinkedLists.ChainRemoved | GlutenFree.OddJob.Manager.Presentation.WS/Scripts/WebSharper/WebSharper.Collections.js:651-659 | Changing one link of each neighbour takes a node out of the doubly linked chain |
| LinkedLists.WithoutFirstAt | GlutenFree.OddJob.Manager.Presentation.WS/Scripts/WebSharper/WebSharper.Collections.js:645-650 | Taking out the node found first is removing the first occurrence |
| HashCollections.Dictionary.constructor | GlutenFree.OddJob.Manager.Presentation.WS/Scripts/WebSharper/WebSharper.Main.js:3395-3417 | The dictionary of the initial entries set one after another |
| HashCollections.Dictionary.Add | GlutenFree.OddJob.Manager.Presentation.WS/Scripts/WebSharper/WebSharper.Main.js:3246-3262 | A key equal to a stored one is refused and nothing changes; otherwise the map grows by the entry and the count by one |
| HashCollections.Dictionary.Set | GlutenFree.OddJob.Manager.Presentation.WS/Scripts/WebSharper/WebSharper.Main.js:3263-3282 | The entry replaces the one under an equal key, key included, or is new; the count is exact |
| HashCollections.Dictionary.Remove | GlutenFree.OddJob.Manager.Presentation.WS/Scripts/WebSharper/WebSharper.Main.js:3235-3245 | What is stored under an equal key goes, and the result says whether there was any; the count is exact |
| HashCollections.Dictionary.Get | GlutenFree.OddJob.Manager.Presentation.WS/Scripts/WebSharper/WebSharper.Main.js:3283-3297 | The value stored under an equal key, or an error exactly if there is none, which tells a missing bucket from a bucket without the key |
| HashCollections.Dictionary.TryGetValue | GlutenFree.OddJob.Manager.Presentation.WS/Scripts/WebSharper/WebSharper.Main.js:3306-3320 | The value stored under an equal key, exactly if there is one |
| HashCollections.Dictionary.ContainsKey | GlutenFree.OddJob.Manager.Presentation.WS/Scripts/WebSharper/WebSharper.Main.js:3337-3346 | True exactly for keys equal to a stored one |
| HashCollections.Dictionary.Clear | GlutenFree.OddJob.Manager.Presentation.WS/Scripts/WebSharper/WebSharper.Main.js:3347-3351 | Empty, with count zero |
| HashCollections.BucketDecides | GlutenFree.OddJob.Manager.Presentation.WS/Scripts/WebSharper/WebSharper.Main.js:3283-3346 | For every hash compatible with the equality, searching one bucket decides about the whole map |
| HashCollections.FindsAfterSet | GlutenFree.OddJob.Manager.Presentation.WS/Scripts/WebSharper/WebSharper.Main.js:3263-3282 | After a set, exactly the keys equal to the new one find the new value; all others find what they found before |
| HashCollections.FindsAfterRemove | GlutenFree.OddJob.Manager.Presentation.WS/Scripts/WebSharper/WebSharper.Main.js:3235-3245 | After a removal, keys equal to the removed one find nothing; all others find what they found before |
| HashCollections.FindsOne | GlutenFree.OddJob.Manager.Presentation.WS/Scripts/WebSharper/WebSharper.Main.js:3283-3297 | A key finds at most one value |
| HashCollections.Exists | GlutenFree.OddJob.Manager.Presentation.WS/Scripts/WebSharper/WebSharper.Main.js:2240-2252 | The search loop over a bucket |
| HashCollections.TryFindIndex | GlutenFree.OddJob.Manager.Presentation.WS/Scripts/WebSharper/WebSharper.Main.js:2654-2668 | The loop that finds the first matching entry |
| HashCollections.TryPick | GlutenFree.OddJob.Manager.Presentation.WS/Scripts/WebSharper/WebSharper.Main.js:2692-2706 | The loop that takes the value of a matching entry |
| HashCollections.FilterOthers | GlutenFree.OddJob.Manager.Presentation.WS/Scripts/WebSharper/WebSharper.Main.js:2273-2280 | The loop that keeps the entries with other keys |
| HashCollections.HashSet.constructor | GlutenFree.OddJob.Manager.Presentation.WS/Scripts/WebSharper/WebSharper.Main.js:4010-4029 | The set of the initial items, equal ones once |
| HashCollections.HashSet.Add | GlutenFree.OddJob.Manager.Presentation.WS/Scripts/WebSharper/WebSharper.Main.js:3797-3803 | True exactly if no equal item was there; afterwards the items equal to it, and all before, are found |
| HashCollections.HashSet.Remove | GlutenFree.OddJob.Manager.Presentation.WS/Scripts/WebSharper/WebSharper.Main.js:3883-3888 | True exactly if an equal item was there; afterwards no equal item is found, and all others are |
| HashCollections.HashSet.Contains | GlutenFree.OddJob.Manager.Presentation.WS/Scripts/WebSharper/WebSharper.Main.js:3964-3969 | True exactly for items equal to a stored one |
| HashCollections.HashSet.ArrRemove | GlutenFree.OddJob.Manager.Presentation.WS/Scripts/WebSharper/WebSharper.Main.js:3804-3819 | The loop takes the first equal item out of the bucket, if there is one |
| HashCollections.HashSet.ArrContains | GlutenFree.OddJob.Manager.Presentation.WS/Scripts/WebSharper/WebSharper.Main.js:3820-3832 | The search loop over a bucket |
| HashCollections.HashSet.UnionWith | GlutenFree.OddJob.Manager.Presentation.WS/Scripts/WebSharper/WebSharper.Main.js:3833-3847 | Afterwards exactly the old items and those of the sequence are found |
| HashCollections.HashSet.ExceptWith | GlutenFree.OddJob.Manager.Presentation.WS/Scripts/WebSharper/WebSharper.Main.js:3938-3952 | Afterwards exactly the old items that equal none of the sequence are found |
| QuickSort.SortByKeys | GlutenFree.OddJob.Manager.Presentation.WS/Scripts/WebSharper/WebSharper.Main.js:2072-2084 | For every total preorder the range is sorted, nothing outside it moves, keys and items move alike, and the sort ends |
| QuickSort.SortSub | GlutenFree.OddJob.Manager.Presentation.WS/Scripts/WebSharper/WebSharper.Main.js:2062-2071 | The same for keys alone |
| QuickSort.QuickSortRange | GlutenFree.OddJob.Manager.Presentation.WS/Scripts/WebSharper/WebSharper.Main.js:2055-2060 | The recursion sorts a range by a permutation of that range |
| QuickSort.Partition | GlutenFree.OddJob.Manager.Presentation.WS/Scripts/WebSharper/WebSharper.Main.js:2042-2054 | The loop and the conditional last swap split the range around the slot returned, by a permutation of the range |
| QuickSort.MovedKeepsElements | GlutenFree.OddJob.Manager.Presentation.WS/Scripts/WebSharper/WebSharper.Main.js:2064-2083 | Such a permutation loses and doubles no element |
| QuickSort.PartitionEnd | GlutenFree.OddJob.Manager.Presentation.WS/Scripts/WebSharper/WebSharper.Main.js:2052-2053 | Whether or not the last swap happens, the pivot's slot splits the range |
| StringEncoding.ReadUndoesWrite | GlutenFree.OddJob.Manager.Presentation.WS/Scripts/WebSharper/WebSharper.Sitelets.js:53-123 | Every text of 16-bit code units comes back from its escaped form |
| StringEncoding.WriteIsUnreserved | GlutenFree.OddJob.Manager.Presentation.WS/Scripts/WebSharper/WebSharper.Sitelets.js:107-123 | The escaped form uses the unreserved characters of section 2.3 of RFC 3986 only, never ends in a dot, and is empty only for the empty text |
| StringEncoding.WriteIsInjective | GlutenFree.OddJob.Manager.Presentation.WS/Scripts/WebSharper/WebSharper.Sitelets.js:107-123 | Different texts have different escaped forms |
| StringEncoding.WriteExactly | GlutenFree.OddJob.Manager.Presentation.WS/Scripts/WebSharper/WebSharper.Sitelets.js:107-123 | Every text is written unit by unit: letters, digits, dash, underscore and a dot that is not the last alone, any other unit as ~ and two lower-case hexadecimal digits of its value, or ~u and four from 256 on |
| StringEncoding.PlainTextStays | GlutenFree.OddJob.Manager.Presentation.WS/Scripts/WebSharper/WebSharper.Sitelets.js:120-123 | A text of such letters, digits, dashes, underscores and inner dots is written as it is |
| StringEncoding.Read | GlutenFree.OddJob.Manager.Presentation.WS/Scripts/WebSharper/WebSharper.Sitelets.js:53-87 | The reading loop computes the recursive definition and ends |
| StringEncoding.ReadEscapedFromChars | GlutenFree.OddJob.Manager.Presentation.WS/Scripts/WebSharper/WebSharper.Sitelets.js:88-102 | Reading one code unit step by step computes its definition |
| StringEncoding.OnlyTheEndEnds | GlutenFree.OddJob.Manager.Presentation.WS/Scripts/WebSharper/WebSharper.Sitelets.js:88-106 | No escape, however malformed, is taken for the end of the text, and each reading consumes something |
| StringEncoding.StepReads | GlutenFree.OddJob.Manager.Presentation.WS/Scripts/WebSharper/WebSharper.Sitelets.js:88-106 | A reading step fails if and only if its escape is cut short or has zeros up to a last digit that is none; otherwise it gives the unit that the digits make, a bad digit counting -2, and the text behind the escape |
| StringEncoding.HexRange | GlutenFree.OddJob.Manager.Presentation.WS/Scripts/WebSharper/WebSharper.Sitelets.js:95-98 | A digit is read as its place among the sixteen, in lower or upper case, and anything else as -2 |
| StringEncoding.MalformedEscapeRefused | GlutenFree.OddJob.Manager.Presentation.WS/Scripts/WebSharper/WebSharper.Sitelets.js:88-106 | A malformed escape is refused if and only if it is cut short or all its digits but the last are zeros |
| StringEncoding.ReadExactly | GlutenFree.OddJob.Manager.Presentation.WS/Scripts/WebSharper/WebSharper.Sitelets.js:53-106 | A text is refused if and only if some step meets a refused escape; otherwise it is read as the units of its steps |
| StringEncoding.BadSecondDigit | GlutenFree.OddJob.Manager.Presentation.WS/Scripts/WebSharper/WebSharper.Sitelets.js:98-106 | A two-digit escape whose last digit alone is bad is refused if its first is zero, and read otherwise |
| StringEncoding.MalformedEscapeIsRead | GlutenFree.OddJob.Manager.Presentation.WS/Scripts/WebSharper/WebSharper.Sitelets.js:98-106 | For example, the malformed `~1z` is read as code unit 14 |
| Routes.LinkRoundTrip | GlutenFree.OddJob.Manager.Presentation.WS/Scripts/WebSharper/WebSharper.Sitelets.js:124-205 | A link gives back its route's segments and query arguments if and only if all segments are nonempty and without / and ?, and keys and values without & and = |
| Routes.CleanLink | GlutenFree.OddJob.Manager.Presentation.WS/Scripts/WebSharper/WebSharper.Sitelets.js:124-205 | From the link of such a route exactly its segments and arguments are read, whatever the order in which the arguments are written |
| Routes.SplitUndoesJoin | GlutenFree.OddJob.Manager.Presentation.WS/Scripts/WebSharper/WebSharper.Sitelets.js:174-180 | Splitting undoes joining of parts without the separator |
| Routes.LinkExactly | GlutenFree.OddJob.Manager.Presentation.WS/Scripts/WebSharper/WebSharper.Sitelets.js:124-155 | The text of a link, piece by piece: a slash before each nonempty segment, or one slash; then ? and & before the arguments, and = within them |
| Routes.StrictKeepsAll | GlutenFree.OddJob.Manager.Presentation.WS/Scripts/WebSharper/WebSharper.Sitelets.js:174-180 | A strict reading keeps the empty segments |
| Routes.FirstPairWins | GlutenFree.OddJob.Manager.Presentation.WS/Scripts/WebSharper/WebSharper.Sitelets.js:185-205 | In a query, the first of several pieces with the same key decides |
| Routes.PairsAreFound | GlutenFree.OddJob.Manager.Presentation.WS/Scripts/WebSharper/WebSharper.Sitelets.js:185-205 | A query has exactly the keys of the pieces with exactly one equals sign |
| Routes.Concat | GlutenFree.OddJob.Manager.Presentation.WS/Scripts/WebSharper/WebSharper.Sitelets.js:141-155 | The loop joins the nonempty segments |
| Routes.Combine | GlutenFree.OddJob.Manager.Presentation.WS/Scripts/WebSharper/WebSharper.Sitelets.js:206-231 | The loop appends the routes one after another; none and one are no special cases |
| Routes.AppendAllSplits | GlutenFree.OddJob.Manager.Presentation.WS/Scripts/WebSharper/WebSharper.Sitelets.js:206-231 | Combining in two halves is combining at once |
| Routes.FirstArgumentWins | GlutenFree.OddJob.Manager.Presentation.WS/Scripts/WebSharper/WebSharper.Sitelets.js:218-221 | Of several routes with the same query key, the first decides |
| Routes.FirstFormDataWins | GlutenFree.OddJob.Manager.Presentation.WS/Scripts/WebSharper/WebSharper.Sitelets.js:222-225 | Of several routes with the same form key, the first decides |
| Routes.LastMethodWins | GlutenFree.OddJob.Manager.Presentation.WS/Scripts/WebSharper/WebSharper.Sitelets.js:214-215 | Of several routes with a method, the last decides |
| Routes.LastBodyWins | GlutenFree.OddJob.Manager.Presentation.WS/Scripts/WebSharper/WebSharper.Sitelets.js:216-217 | Of several routes with a body, the last decides |
| Routers.PairExact | GlutenFree.OddJob.Manager.Presentation.WS/Scripts/WebSharper/WebSharper.Sitelets.js:367-396 | Two exact routers one after the other are exact |
| Routers.PairRoundTrips | GlutenFree.OddJob.Manager.Presentation.WS/Scripts/WebSharper/WebSharper.Sitelets.js:367-396 | Two round-tripping routers one after the other round-trip |
| Routers.AheadExact | GlutenFree.OddJob.Manager.Presentation.WS/Scripts/WebSharper/WebSharper.Sitelets.js:352-366 | A constant ahead of an exact router is exact |
| Routers.AheadRoundTrips | GlutenFree.OddJob.Manager.Presentation.WS/Scripts/WebSharper/WebSharper.Sitelets.js:352-366 | A constant ahead keeps the round trip |
| Routers.BehindExact | GlutenFree.OddJob.Manager.Presentation.WS/Scripts/WebSharper/WebSharper.Sitelets.js:327-351 | A constant behind an exact router is exact |
| Routers.BehindRoundTrips | GlutenFree.OddJob.Manager.Presentation.WS/Scripts/WebSharper/WebSharper.Sitelets.js:327-351 | A constant behind keeps the round trip |
| Routers.OrRoundTrips | GlutenFree.OddJob.Manager.Presentation.WS/Scripts/WebSharper/WebSharper.Sitelets.js:315-326 | The sum of two round-tripping routers round-trips |
| Routers.SumRoundTrips | GlutenFree.OddJob.Manager.Presentation.WS/Scripts/WebSharper/WebSharper.Sitelets.js:642-659 | The sum of any number of round-tripping routers round-trips |
| Routers.OptionExact | GlutenFree.OddJob.Manager.Presentation.WS/Scripts/WebSharper/WebSharper.Sitelets.js:484-523 | The option router of an exact router is exact |
| Routers.OptionRoundTrips | GlutenFree.OddJob.Manager.Presentation.WS/Scripts/WebSharper/WebSharper.Sitelets.js:484-523 | The option router of a round-tripping router round-trips |
| Routers.NullableRoundTripsExactly | GlutenFree.OddJob.Manager.Presentation.WS/Scripts/WebSharper/WebSharper.Sitelets.js:524-545 | A present value round-trips, whatever follows, if and only if its text has a first segment other than null; null always does |
| Routers.NullableExact | GlutenFree.OddJob.Manager.Presentation.WS/Scripts/WebSharper/WebSharper.Sitelets.js:524-545 | With such texts the nullable router of an exact router is exact |
| RouterCollections.ArrayExact | GlutenFree.OddJob.Manager.Presentation.WS/Scripts/WebSharper/WebSharper.Sitelets.js:546-592 | An array of exact items is exact if and only if its length is a 32-bit number |
| RouterCollections.ArrayRoundTrips | GlutenFree.OddJob.Manager.Presentation.WS/Scripts/WebSharper/WebSharper.Sitelets.js:546-592 | An array of round-tripping items round-trips if and only if its length is a 32-bit number |
| RouterCollections.ListExact | GlutenFree.OddJob.Manager.Presentation.WS/Scripts/WebSharper/WebSharper.Sitelets.js:480-483 | Lists behave as the arrays of their elements |
| RouterCollections.TupleExact | GlutenFree.OddJob.Manager.Presentation.WS/Scripts/WebSharper/WebSharper.Sitelets.js:1364-1404 | A tuple of exact items is exact |
| RouterCollections.TupleRoundTrips | GlutenFree.OddJob.Manager.Presentation.WS/Scripts/WebSharper/WebSharper.Sitelets.js:1364-1404 | A tuple of round-tripping items round-trips |
| RouterCollections.DecimalValue | GlutenFree.OddJob.Manager.Presentation.WS/Scripts/WebSharper/WebSharper.Sitelets.js:586-586 | The number of items, as written, is read as this number |
| RouterCollections.MapValuesExact | GlutenFree.OddJob.Manager.Presentation.WS/Scripts/WebSharper/WebSharper.Sitelets.js:717-733 | Conversion there and back keeps exactness and round trip |
| RouterCollections.TryMapExact | GlutenFree.OddJob.Manager.Presentation.WS/Scripts/WebSharper/WebSharper.Sitelets.js:693-716 | Partial conversion keeps exactness where decoding undoes encoding |
| RouterCollections.TryMapRoundTrips | GlutenFree.OddJob.Manager.Presentation.WS/Scripts/WebSharper/WebSharper.Sitelets.js:693-716 | Partial conversion keeps the round trip where decoding undoes encoding |
| RouterCollections.FilterExact | GlutenFree.OddJob.Manager.Presentation.WS/Scripts/WebSharper/WebSharper.Sitelets.js:676-692 | Restricting an exact router to some values keeps it exact |
| RouterCollections.FilterRoundTrips | GlutenFree.OddJob.Manager.Presentation.WS/Scripts/WebSharper/WebSharper.Sitelets.js:676-692 | Restricting a router to some values keeps the round trip |
| RouterLinks.FromStringExact | GlutenFree.OddJob.Manager.Presentation.WS/Scripts/WebSharper/WebSharper.Sitelets.js:294-307 | A constant of any name is exact |
| RouterLinks.MapToExact | GlutenFree.OddJob.Manager.Presentation.WS/Scripts/WebSharper/WebSharper.Sitelets.js:660-675 | One value behind an exact constant is exact |
| RouterLinks.SingleExact | GlutenFree.OddJob.Manager.Presentation.WS/Scripts/WebSharper/WebSharper.Sitelets.js:605-630 | A single endpoint is exact |
| RouterLinks.TableRoundTrips | GlutenFree.OddJob.Manager.Presentation.WS/Scripts/WebSharper/WebSharper.Sitelets.js:631-641 | A table of endpoints round-trips, whatever the names |
| RouterLinks.TableLinkExactly | GlutenFree.OddJob.Manager.Presentation.WS/Scripts/WebSharper/WebSharper.Sitelets.js:631-641 | The link of an endpoint is parsed as this endpoint if and only if no earlier entry of the table has a name of the same parts |
| RouterLinks.StringExact | GlutenFree.OddJob.Manager.Presentation.WS/Scripts/WebSharper/WebSharper.Sitelets.js:1629-1640 | The string router is exact for every string and wrong for null, which it writes like the text null |
| RouterLinks.QueryExactly | GlutenFree.OddJob.Manager.Presentation.WS/Scripts/WebSharper/WebSharper.Sitelets.js:968-991 | A value in a query argument comes back if and only if it is written as one segment, what follows lacks the key, and that segment alone is read as the value, which holds for every exact item that writes nothing but a segment; likewise for exactness |
| RouterLinks.LinksAreReadBack | GlutenFree.OddJob.Manager.Presentation.WS/Scripts/WebSharper/WebSharper.Sitelets.js:821-858 | The link that a router writes for a value is parsed as this value, if the router is exact for it and what it writes is clean |
| RouterLinks.PairLink | GlutenFree.OddJob.Manager.Presentation.WS/Scripts/WebSharper/WebSharper.Sitelets.js:367-396 | Links of a pair come back if both routers are exact and what they write is clean |
| RouterLinks.AheadLink | GlutenFree.OddJob.Manager.Presentation.WS/Scripts/WebSharper/WebSharper.Sitelets.js:352-366 | Links behind a constant come back if the name has no question mark, and the router is exact and writes clean text |
| RouterLinks.OptionLink | GlutenFree.OddJob.Manager.Presentation.WS/Scripts/WebSharper/WebSharper.Sitelets.js:484-523 | Links of an option come back if the item router is exact and writes clean text |
| RouterLinks.ArrayLink | GlutenFree.OddJob.Manager.Presentation.WS/Scripts/WebSharper/WebSharper.Sitelets.js:546-592 | Links of an array come back if the item router is exact, every item is written clean, and the length is a 32-bit number |
| RouterLinks.StringLink | GlutenFree.OddJob.Manager.Presentation.WS/Scripts/WebSharper/WebSharper.Sitelets.js:1629-1640 | Every string comes back from its link, the empty one too; a null string comes back as the text null |
| RouterLinks.TextArrayLink | GlutenFree.OddJob.Manager.Presentation.WS/Scripts/WebSharper/WebSharper.Sitelets.js:821-858 | From the link of an array of strings, whatever their characters, its nonempty strings come back in order and its empty ones behind them; so the array comes back if and only if its length is a 32-bit number and no nonempty string follows an empty one |
| RouterLinks.StringLinkable | GlutenFree.OddJob.Manager.Presentation.WS/Scripts/WebSharper/WebSharper.Sitelets.js:1634-1640 | A string's segment survives a link if and only if the string is not empty |
| RouterLinks.FromStringLinkable | GlutenFree.OddJob.Manager.Presentation.WS/Scripts/WebSharper/WebSharper.Sitelets.js:294-307 | A constant survives a link if and only if its name has no question mark |
| RouterSoundness.FromStringSound | GlutenFree.OddJob.Manager.Presentation.WS/Scripts/WebSharper/WebSharper.Sitelets.js:294-307 | A constant accepts exactly the paths that begin with it |
| RouterSoundness.MapToSound | GlutenFree.OddJob.Manager.Presentation.WS/Scripts/WebSharper/WebSharper.Sitelets.js:660-675 | One value behind a constant accepts only what it writes |
| RouterSoundness.PairSound | GlutenFree.OddJob.Manager.Presentation.WS/Scripts/WebSharper/WebSharper.Sitelets.js:367-396 | If both routers accept only what they write, so does the pair |
| RouterSoundness.AheadSound | GlutenFree.OddJob.Manager.Presentation.WS/Scripts/WebSharper/WebSharper.Sitelets.js:352-366 | Likewise with a constant ahead |
| RouterSoundness.BehindSound | GlutenFree.OddJob.Manager.Presentation.WS/Scripts/WebSharper/WebSharper.Sitelets.js:327-351 | Likewise with a constant behind |
| RouterSoundness.OptionSound | GlutenFree.OddJob.Manager.Presentation.WS/Scripts/WebSharper/WebSharper.Sitelets.js:484-523 | Likewise for options: nothing but None, or Some before what the item router accepts |
| RouterSoundness.NullableSound | GlutenFree.OddJob.Manager.Presentation.WS/Scripts/WebSharper/WebSharper.Sitelets.js:524-545 | Likewise for nullable values |
| RouterSoundness.StringSoundExactly | GlutenFree.OddJob.Manager.Presentation.WS/Scripts/WebSharper/WebSharper.Sitelets.js:1629-1640 | What the string router reads is what it writes if and only if the segment is there and is the string's escaped form |
| RouterSoundness.ArraySoundExactly | GlutenFree.OddJob.Manager.Presentation.WS/Scripts/WebSharper/WebSharper.Sitelets.js:546-592 | An array router accepts a number and that many items, which is what it writes if and only if the number is in plain decimal form |
| RouterSoundness.TupleSound | GlutenFree.OddJob.Manager.Presentation.WS/Scripts/WebSharper/WebSharper.Sitelets.js:1364-1404 | A tuple of routers that accept only what they write accepts only what it writes |
| RouterSoundness.MapValuesSound | GlutenFree.OddJob.Manager.Presentation.WS/Scripts/WebSharper/WebSharper.Sitelets.js:717-733 | Conversion keeps soundness where encoding undoes decoding |
| RouterSoundness.TryMapSound | GlutenFree.OddJob.Manager.Presentation.WS/Scripts/WebSharper/WebSharper.Sitelets.js:693-716 | Partial conversion keeps soundness where encoding undoes decoding |
| RouterSoundness.FilterSound | GlutenFree.OddJob.Manager.Presentation.WS/Scripts/WebSharper/WebSharper.Sitelets.js:676-692 | A restricted router accepts no value outside the restriction |
| RouterSoundness.OrIsSum | GlutenFree.OddJob.Manager.Presentation.WS/Scripts/WebSharper/WebSharper.Sitelets.js:315-326 | The sum of two is the sum of a list of two: the first router is asked first, for writing and for parsing |
| RouterSoundness.OptionTexts | GlutenFree.OddJob.Manager.Presentation.WS/Scripts/WebSharper/WebSharper.Sitelets.js:484-545 | The texts None, Some and null, letter by letter |

## Left out

- The actor library itself, routing internals, timers, logging and configuration text: mailboxes, tells and blocking asks remain as steps.
- Handlers that a subclass may override, such as `OnJobSuccess` or `OnCustomMessage`: they do nothing here, as in the base class.
- A second shutdown request to one coordinator, and several coordinators on one queue.
- Starting with `numWorkers` of zero or less: the bound on pending items is stated for queues with a worker.
- Counters are unbounded integers; a wrap-around of the 32-bit pulse counters is not modelled.
- `UpdateJobMetadata*` and other administrative edits, criteria queries and the purger.
- SQL text, connections, table creation and the mapping library: tables are collections of rows.
- Type resolution, value serialization and the reflective creation and execution of jobs: a captured call arrives with its values and type names as text.
- The in-memory test store, the file-system store and the thread-pool executor.
- `GetSerializableJobsByCriteria` and `GetJob`: the same reconstruction over other selections.
- JobJoin.ExecuteJoinQuery: types are kept as names, because resolving them is library behaviour.
- LikeRewriting.Visit: evaluation of a member whose owner changes between the visit and the query is not modelled.
- LikeRewriting.FlatArrayExactly: arrays with elements that evaluate to null or throw, and nested arrays, have no exact condition here; `ArrayCallExactly` covers nested ones whose constants are texts.
- BalancedTree.Build: the truncation of the middle index to 32 bits is not modelled, since it matters only beyond 2^31 elements.
- `OfSeq` and `fromSeq`, which sort with the platform's sort, and set operations built from the modelled ones.
- RouterCollections.CollectItems: a negative count has no result here, while `RouterModule.Array` may not end; no writer produces one.
- RouterCollections.Tuple: all elements have one type, because a heterogeneous array has no counterpart in the model's types.
- HashCollections.HashSet: the set comparisons and the enumeration order of buckets are not modelled.
- QuickSort.SortByKeys: keys and items are two arrays; if one array served as both, the swaps would cancel each other.
- LinkedLists.LinkedList.RemoveNode: the node belongs to the list; a node removed before, or of another list, is not modelled.
- Form data, bodies, methods and cross-origin settings of routers, and the numeric and date routers: they follow the same combinators or the browser's interfaces.
- WebSharper's user interface, remoting, observables, mailboxes, dates and GUID parsing.

# Verified cores of the FreeNAS middleware

This project models, in Dafny, the parts of the FreeNAS middleware and its helper tools whose
behaviour is hardest to see from the code, and proves what they promise over every input, every
run or every reachable state. `dafny verify dfyconfig.toml` checks all of it.

| file | what it models |
|---|---|
| `Jobs.dfy`, `JobRuns.dfy`, `JobResults.dfy`, `JobsQueue.dfy` | the job scheduler: shared locks by name, the queue and its event, the life of a job, the bounded history |
| `ProgressBuffer.dfy` | the buffer that thins out progress updates of a job |
| `WinAcl.dfy` | inheritance of NFSv4 ACLs in the `winacl` tool and its two-level table |
| `Aliases.dfy` | the loop that resolves mail aliases in place |
| `Schema.dfy`, `Cleaning.dfy`, `CleanedParts.dfy`, `Rejections.dfy`, `Semantics.dfy`, `Stability.dfy`, `Idempotence.dfy`, `Conformance.dfy` | cleaning, updating and masking of method arguments by their schemas |
| `Resolver.dfy`, `Registration.dfy`, `NameRuns.dfy`, `MethodResolver.dfy`, `PatchedSchemas.dfy` | resolution of references between method schemas |
| `Alerts.dfy`, `AlertPolicies.dfy`, `AlertService.dfy` | the list of alerts, and the policies that report its changes |
| `Bits.dfy`, `Md4.dfy` | the MD4 fallback, against RFC 1320 |
| `LogCutter.dfy` | the filter for progress messages in cloud sync logs |
| `Luns.dfy` | LUN numbers of the extents of an iSCSI target |

Objects that the program updates in place are classes; their methods are proved equal to steps of a
transition system or to a function, and the theorems are about those. Loops of the program are
loops here. A few properties turned out not to hold of the code without a condition; for each of
them there is a lemma with a concrete case that fails and a theorem under the condition:

- cleaning a value twice may differ from cleaning it once (`NullDefaultBreaks`,
  `ConvertedChoiceBreaks`, `DirtyListDefaultBreaks`, `AlternativesFlip`, `AlternativesBreak`);
  `IdempotentExactly` gives the exact condition for lists of which at most the last kind of item has
  parts, and `CleanIdempotent` a condition for all lists;
- an alternative of a list that rejects a value may leave it changed (`RejectedValueIsChanged`);
  `RejectedUnchanged` and `IntactExactly` say exactly when it does not;
- the order in which methods are resolved matters where one registers a schema and then has to wait:
  an attribute, or a patch that is a parameter itself, is registered again and the loop fails
  (`RetryTrap`), a nested patch is not, but a pass that does nothing else makes the loop give up
  (`GivesUpEarly`); `MethodsOutcome` gives the exact outcome in the given order;
- an inherited directory ACL can hold a file-only entry at the first level, which a comment in
  `calculate_inherited_acl` rules out; the model follows the code (`StrayExample`, `StrayEntries`);
- a name may stay in the table of job locks with nothing queued or running (`NameStays`); that is so
  exactly when some job of that name was turned away (`IdleLocks`);
- disabling an automatically numbered extent renumbers automatic ones (`SecondRowShifts`), exactly those
  after it (`AutomaticRowsShift`).

## Model

| member | source | states |
|---|---|---|
| `Jobs.InitInv` | src/middlewared/middlewared/job.py:62-72 | the empty queue satisfies the invariant of all states |
| `Jobs.HandleLockInv` | src/middlewared/middlewared/job.py:106-117 | attaching a job to the lock of its name, creating the lock if there is none, keeps the invariant |
| `Jobs.EvictedHistory` | src/middlewared/middlewared/job.py:187-197 | making room in the history keeps its order and never drops a live job |
| `Jobs.AddInv` | src/middlewared/middlewared/job.py:85-101 | adding a job, or turning it away by `lock_queue_size`, keeps the invariant |
| `Jobs.NextIsFirst` | src/middlewared/middlewared/job.py:143-149 | no queued job with the lock name of the dispatched one stands before it |
| `Jobs.NextInv` | src/middlewared/middlewared/job.py:139-159 | a round of the scheduling loop keeps the invariant, whether or not it finds a job |
| `Jobs.SameNameSameLock` | src/middlewared/middlewared/job.py:106-133 | queued and active jobs with one lock name share one lock object, although lock objects are dropped and created again |
| `Jobs.StepInv` | src/middlewared/middlewared/job.py:85-164 | every step of scheduler and jobs keeps the invariant: references, queue, locks, holders, wake-up, order, identifiers, history |
| `JobRuns.RunInv` | src/middlewared/middlewared/job.py:85-164 | every state of every run satisfies the invariant |
| `JobRuns.MutualExclusion` | src/middlewared/middlewared/job.py:85-159 | in every run at most one dispatched, unfinished job exists per lock name, and its lock is the registered one |
| `JobRuns.QueuedLockRegistered` | src/middlewared/middlewared/job.py:106-133 | in every run the lock of a queued job is the one registered under its name |
| `JobRuns.IdleLocks` | src/middlewared/middlewared/job.py:86-90 | in every run, with nothing queued or active, a name is registered if and only if some job of that name was ever turned away |
| `JobRuns.NameStays` | src/middlewared/middlewared/job.py:86-133 | a run from the start, for every name and history size, that ends idle with the name still registered |
| `JobRuns.RunEvolves` | src/middlewared/middlewared/job.py:269-277 | along a run a job keeps lock and identifier, only moves forward, and a terminal state stays |
| `JobRuns.DispatchOrder` | src/middlewared/middlewared/job.py:139-156 | jobs with one lock name are dispatched in the order in which they were queued |
| `JobResults.StateExplained` | src/middlewared/middlewared/job.py:360-406 | in every run from the start a job is a success, has failed or is aborted if and only if its body returned, raised, or was cancelled or started with an abort requested, and it waits if and only if it was never started |
| `JobResults.RefusedExactly` | src/middlewared/middlewared/job.py:86-90 | a job is turned away if and only if it has a limit and at least that many jobs of its lock name are queued |
| `JobResults.AddedName` | src/middlewared/middlewared/job.py:106-117 | the lock of a new job has the name that was asked for |
| `JobResults.IdsConsecutive` | src/middlewared/middlewared/job.py:187-189 | in every run the accepted jobs are numbered 1, 2, 3 and so on, and those turned away have no number |
| `JobResults.LeavesExactly` | src/middlewared/middlewared/job.py:187-203 | an entry leaves the history if and only if it is a transient job that finishes, or the oldest ended one when a job is accepted into a history over its limit |
| `JobResults.AbortExactly` | src/middlewared/middlewared/job.py:328-334 | an abort request marks a job that has not ended and changes nothing else, and has no effect on one that has |
| `JobResults.NextGoesOn` | src/middlewared/middlewared/job.py:150-159 | the scheduling loop stays awake if and only if it took a job and others are queued |
| `JobRuns.Overtaking` | src/middlewared/middlewared/job.py:143-149 | a queued job is overtaken by a later one only while an active job holds its own lock |
| `JobRuns.StepSuccession` | src/middlewared/middlewared/job.py:269-275 | one step takes a recorded state from waiting to running or aborted, or from running to a terminal one, or leaves it |
| `JobRuns.LifeCycle` | src/middlewared/middlewared/job.py:346-408 | in every run a job that succeeded or failed was running before, and a terminal state is final |
| `JobRuns.ReleasedByHolder` | src/middlewared/middlewared/job.py:119-133 | a held lock becomes free only through the clean-up of the job that holds it |
| `JobRuns.ReleasedOnce` | src/middlewared/middlewared/job.py:379-388 | a job is cleaned up at most once in a run, and from then on neither holds its lock nor is listed by it |
| `JobRuns.ReleasedExactlyOnce` | src/middlewared/middlewared/job.py:379-388 | in a run that only an add or an abort could continue, every job that was queued or active is cleaned up exactly once |
| `JobRuns.StepMoves` | src/middlewared/middlewared/job.py:139-159 | without new jobs, every dispatch and every finish takes exactly one from twice the queue length plus the active jobs |
| `JobRuns.NoLostWakeUp` | src/middlewared/middlewared/job.py:92-101 | whenever the scheduler is parked on a clear event, no queued job could run |
| `JobRuns.NeverStuck` | src/middlewared/middlewared/job.py:161-164 | while a job is queued or active, some step other than an add or an abort is possible |
| `JobRuns.Drains` | src/middlewared/middlewared/job.py:119-164 | with no further adds, dispatches and finishes number at most twice the queue plus the active jobs, the queue is empty when they are used up, and the number of all steps is bounded |
| `JobRuns.HistoryBound` | src/middlewared/middlewared/job.py:187-202 | in every run the history exceeds `maxlen + 1` only as far as that many jobs were live at once, and holds every live job |
| `JobRuns.StepHistory` | src/middlewared/middlewared/job.py:190-197 | one step lets the history grow past `maxlen + 1` only when all it holds is live |
| `JobRuns.IdsIncrease` | src/middlewared/middlewared/job.py:187-189 | identifiers strictly increase with creation across a run |
| `JobsQueues.JobsQueue.constructor` | src/middlewared/middlewared/job.py:62-72 | a new queue is the initial state |
| `JobsQueues.JobsQueue.AttachLock` | src/middlewared/middlewared/job.py:106-117 | the object update is the step that attaches a job to its lock |
| `JobsQueues.JobsQueue.Store` | src/middlewared/middlewared/job.py:187-197 | the loop over the history drops its first job in a terminal state, and the job gets the next identifier |
| `JobsQueues.JobsQueue.QueuedWith` | src/middlewared/middlewared/job.py:88-90 | the collected jobs are queued and hold on to the same lock object |
| `JobsQueues.JobsQueue.AddJob` | src/middlewared/middlewared/job.py:85-101 | the object update is the add step and keeps the invariant; an accepted job is returned, or the one queued last for its lock, or the index error of a limit of zero |
| `JobsQueues.JobsQueue.Scan` | src/middlewared/middlewared/job.py:142-149 | the search finds the first queued job without a lock or with a free one |
| `JobsQueues.JobsQueue.NextRound` | src/middlewared/middlewared/job.py:139-159 | a round is the dispatch step and keeps the invariant; without a job to run the event is clear |
| `JobsQueues.JobsQueue.SetState` | src/middlewared/middlewared/job.py:269-277 | the recorded state changes, under the assertions the program makes |
| `JobsQueues.JobsQueue.StartJob` | src/middlewared/middlewared/job.py:358-362 | an aborted job never runs, any other becomes running; the assertions of `set_state` hold |
| `JobsQueues.JobsQueue.EndJob` | src/middlewared/middlewared/job.py:364-378 | returning, raising and being cancelled lead to success, failure and abortion |
| `JobsQueues.JobsQueue.Release` | src/middlewared/middlewared/job.py:119-133 | releasing a lock is safe, the lock being held and registered, drops an unused name and sets the event |
| `JobsQueues.JobsQueue.CleanUp` | src/middlewared/middlewared/job.py:379-388 | the clean-up is the finish step and keeps the invariant |
| `JobsQueues.JobsQueue.AbortJob` | src/middlewared/middlewared/job.py:328-344 | an abort of an ended job is ignored, any other is noted |
| `ProgressBuffers.JobProgressBuffer.constructor` | src/middlewared/middlewared/job.py:509-525 | nothing was forwarded and nothing is pending |
| `ProgressBuffers.JobProgressBuffer.SetProgress` | src/middlewared/middlewared/job.py:526-542 | forwarded updates stay an interval apart, and the newest is forwarded or pending |
| `ProgressBuffers.JobProgressBuffer.Cancel` | src/middlewared/middlewared/job.py:544-549 | nothing is pending and nothing was forwarded |
| `ProgressBuffers.JobProgressBuffer.DoPendingUpdate` | src/middlewared/middlewared/job.py:557-562 | the pending update is forwarded once, and the newest stays current |
| `ProgressBuffers.JobProgressBuffer.TimerFires` | src/middlewared/middlewared/job.py:535-542 | the timer forwards the pending update not earlier than an interval after the last one |
| `ProgressBuffers.JobProgressBuffer.Flush` | src/middlewared/middlewared/job.py:551-555 | after a flush the last forwarded update is the newest one |
| `WinAcl.ChildEntries` | src/winacl/winacl.c:702-785 | every inherited directory entry is reproduced by further inheritance or dropped by it |
| `WinAcl.FilterOnce` | src/winacl/winacl.c:702-785 | on inherited ACLs inheritance only filters, and filtering twice is filtering once, for directories and for files |
| `WinAcl.ThirdApplication` | src/winacl/winacl.c:645-793 | when both setup calls succeed, three applications of inheritance equal two |
| `WinAcl.DepthCap` | src/winacl/winacl.c:59 | the table of two levels is exact: at any depth iterated inheritance gives the ACLs of the second level |
| `WinAcl.SetupSucceeds` | src/winacl/winacl.c:983-991 | the setup succeeds if and only if the source is trivial, or has a surviving file entry and a directory entry and either a file entry that propagates or a trivial first level |
| `WinAcl.StrayEntries` | src/winacl/winacl.c:768-771 | a file-only entry is left on a directory if and only if the parent has a surviving file-only entry that does not propagate |
| `WinAcl.StrayEntriesGone` | src/winacl/winacl.c:768-771 | one level further down no such entry is left |
| `WinAcl.StrayExample` | src/winacl/winacl.c:768-771 | a concrete parent whose directory ACL carries such an entry |
| `WinAcl.Membership` | src/winacl/winacl.c:702-785 | which entries reach directories and files, as an equivalence on the entries of the parent |
| `WinAcl.FileEntries` | src/winacl/winacl.c:702-785 | the file ACL has one entry for each parent entry that files inherit, in order, with the same grant, marked as inherited and without inheritance flags |
| `WinAcl.DirectoryEntries` | src/winacl/winacl.c:702-785 | the directory ACL has one entry for each parent entry that directories inherit, in order, with the same grant; further inheritance stays on it if and only if the parent entry is not limited to one level |
| `WinAcl.StrayOrder` | src/winacl/winacl.c:768-771 | the file-only entries that reach the directory ACL stand there in reverse order |
| `WinAcl.InheritedEntries` | src/winacl/winacl.c:645-793 | a parent that is trivial is copied, and any other gives exactly these two ACLs, entry by entry |
| `WinAcl.WindowsAclInfo.PassOn` | src/winacl/winacl.c:703-783 | one parent entry is inserted into either list at its running offset, or left behind as a stray |
| `WinAcl.WindowsAclInfo.CalculateInheritedAcl` | src/winacl/winacl.c:645-793 | the loop fills one level with the inherited ACLs, leaves the other levels alone, returns an error exactly if either list is empty, and no list outgrows the parent |
| `WinAcl.WindowsAclInfo.SetupClone` | src/winacl/winacl.c:983-991 | setup succeeds exactly if both levels are accepted, and the table then holds the first two iterations |
| `WinAcl.WindowsAclInfo.ChooseAcl` | src/winacl/winacl.c:479-490 | the ACL picked at any level of the walk is the one that iterating inheritance that many times gives |
| `Aliases.VisitProgress` | src/freenas/etc/find_alias_for_smtplib.py:109-113 | visiting a key never adds reachable pairs, and removes some unless the key is settled or runs into a longer cycle |
| `Aliases.VisitMerges` | src/freenas/etc/find_alias_for_smtplib.py:109-113 | chains that met before still meet after a visit |
| `Aliases.ResolvesUnique` | src/freenas/etc/find_alias_for_smtplib.py:107-116 | a chain that leaves the table has one end and no other address resolves it |
| `Aliases.Pass` | src/freenas/etc/find_alias_for_smtplib.py:108-115 | a pass that changes the table makes the set of reachable pairs strictly smaller, and one that does not leaves every key settled |
| `Aliases.ResolveAliases` | src/freenas/etc/find_alias_for_smtplib.py:107-116 | for every table and visiting order the loop ends; chains that leave the table get their end, others a self-mapped key of the cycle they ran into, and two keys get one address exactly if their chains meet |
| `Stability.StableFixed` | src/middlewared/middlewared/schema.py:458-477 | for every schema, a value that has the types, choices, keys and required parts already, and each of whose items is so under one alternative and left alone by the ones before, is not changed by cleaning |
| `Stability.StableExactly` | src/middlewared/middlewared/schema.py:458-477 | where only the last kind of item of a list has parts, these are exactly the values that cleaning leaves alone |
| `Stability.IntactExactly` | src/middlewared/middlewared/schema.py:591-623 | there, a rejected value is as it was given if and only if what comes before the rejected part is such a value, no default was filled in, and so on for the rejected part |
| `CleanedParts.DefaultsAt` | src/middlewared/middlewared/schema.py:615-621 | defaults are appended for exactly the attributes that are wanted and missing, and this fails exactly if one of them has none |
| `Idempotence.MissingValue` | src/middlewared/middlewared/schema.py:77-85 | if cleaning given values is idempotent, cleaning a missing one is if and only if a null default is allowed or barred by the choices |
| `Semantics.CleanExactly` | src/middlewared/middlewared/schema.py:458-623 | cleaning a given value yields a result if and only if the result is related to it by the meaning of the schema, which is defined without the code: kinds, choices, null, parts and completion |
| `Semantics.MissingExactly` | src/middlewared/middlewared/schema.py:77-85 | the same for a missing value: it becomes the clean default, and without a default there is no result |
| `Semantics.DefaultHandedOut` | src/middlewared/middlewared/schema.py:77-85 | a missing value becomes the default where that is clean already |
| `Semantics.DefaultLikeGiven` | src/middlewared/middlewared/schema.py:77-85 | a default is treated like a given value, unless it is null and null is not allowed |
| `Semantics.DefaultFilledIn` | src/middlewared/middlewared/schema.py:615-621 | a dictionary that is cleaned gains each missing attribute with its clean default |
| `Semantics.DecimalExactly` | src/middlewared/middlewared/schema.py:169-174 | numbers turn into exactly their decimal numerals: digits by place value, no leading zero, a sign for negative ones |
| `Semantics.EqualExactly` | src/middlewared/middlewared/schema.py:51-53 | values without dictionaries are equal as choices if and only if they agree once booleans are read as 0 and 1 |
| `Semantics.DictEqualExactly` | src/middlewared/middlewared/schema.py:51-53 | dictionaries are equal as choices if and only if they have the same keys and equal values under them, in any order |
| `Idempotence.AlternativesIdempotent` | src/middlewared/middlewared/schema.py:466-476 | alternatives that are idempotent, each of which keeps what a later one makes of any value or leaves it alone, are idempotent together |
| `Idempotence.CleanIdempotent` | src/middlewared/middlewared/schema.py:591-623 | on every steady schema, however nested and with any kinds of items, cleaning a cleaned value changes nothing, for given and missing arguments |
| `Idempotence.IdempotentExactly` | src/middlewared/middlewared/schema.py:458-477 | for nested schemas where only the last kind of item of a list has parts, and whose dictionaries accept something, cleaning is idempotent if and only if the schema is steady: conversions respect choices and are not undone by another alternative, lists handed out for null are clean, null defaults are allowed, and so on for the parts that are reached |
| `Idempotence.MixedItemsSteady` | src/middlewared/middlewared/pytest/unit/test_schema.py:434-438 | a list of strings, booleans and dictionaries is cleaned for good if the dictionaries are |
| `Idempotence.NullDefaultBreaks` | src/middlewared/middlewared/schema.py:77-85 | a null default where null is not allowed is handed out and then rejected |
| `Idempotence.ConvertedChoiceBreaks` | src/middlewared/middlewared/schema.py:169-179 | an integer choice of a string attribute is converted to a string that is not a choice |
| `Idempotence.DirtyListDefaultBreaks` | src/middlewared/middlewared/schema.py:458-461 | a list default that is handed out for null is not cleaned |
| `Idempotence.AlternativesBreak` | src/middlewared/middlewared/schema.py:466-476 | what the second alternative makes of an item may be changed again by the first |
| `Idempotence.AlternativesFlip` | src/middlewared/middlewared/schema.py:466-476 | two alternatives without parts that turn an item into a number and back into a string at every cleaning |
| `Rejections.LeafRejects` | src/middlewared/middlewared/schema.py:169-179 | a schema without parts never changes a value that it rejects |
| `Rejections.RejectedUnchanged` | src/middlewared/middlewared/schema.py:591-623 | a rejected value is as it was given if and only if all that was accepted before was clean already, no default was filled in, and the rejected part is as it was |
| `Rejections.FitsOriginal` | src/middlewared/middlewared/schema.py:468-474 | if every alternative that rejects an item leaves it alone, the first one that accepts the original is taken |
| `Rejections.LeavesFit` | src/middlewared/middlewared/schema.py:466-476 | if only the last alternative has parts, the first one that accepts an item is taken, and the last one decides what is left of an item that none accepts |
| `Rejections.RejectedValueIsChanged` | src/middlewared/middlewared/schema.py:466-476 | an alternative that rejects an item half-way hands it to the next one changed |
| `Schema.UpdateRestricts` | src/middlewared/middlewared/schema.py:591-623 | a dictionary that passes a schema passes its update variant, whose result is the full one restricted to the given keys |
| `PatchedSchemas.UpdateResolves` | src/middlewared/middlewared/schema.py:840-868 | resolving the patch that sets `update` yields the update variant under the new name, and leaves the patched schema registered as it was |
| `PatchedSchemas.PatchRestricts` | src/middlewared/middlewared/schema.py:840-868 | a dictionary that passes a registered schema passes the patched one, whose result is the full one restricted to the given keys |
| `PatchedSchemas.PatchNeedsDict` | src/middlewared/middlewared/schema.py:840-845 | a patch of something registered that is not a dictionary fails, and one of an unknown name has to wait |
| `PatchedSchemas.EditMeaning` | src/middlewared/middlewared/schema.py:858-862 | an edit changes, in the meaning of the schema, exactly the part of that name and in it exactly what the settings name |
| `PatchedSchemas.AttrMeaning` | src/middlewared/middlewared/schema.py:863-865 | setting attributes of the dictionary changes in its meaning exactly what the settings name |
| `PatchedSchemas.LaterCounts` | src/middlewared/middlewared/schema.py:863-865 | of two settings of one attribute the later one counts |
| `PatchedSchemas.EditResolves` | src/middlewared/middlewared/schema.py:840-868 | resolving a patch that edits one part yields the registered schema under the new name with that part edited, and leaves the registry as it was |
| `PatchedSchemas.PatchDemands` | src/middlewared/middlewared/schema.py:858-862 | a dictionary without the part is rejected once a patch makes the part required and it has no default |
| `PatchedSchemas.RequiredGiven` | src/middlewared/middlewared/schema.py:858-862 | whether a part is required makes no difference to a value that is given |
| `PatchedSchemas.NullableGiven` | src/middlewared/middlewared/schema.py:858-862 | an edited part accepts null if and only if the edit allows it, and treats other values as before |
| `PatchedSchemas.ChoicesGiven` | src/middlewared/middlewared/schema.py:858-862 | of the values the type accepts an edited part accepts exactly the new choices |
| `PatchedSchemas.DefaultGiven` | src/middlewared/middlewared/schema.py:858-862 | a new default takes effect only where the part had one already, and given values are treated as before |
| `Schema.DumpHidesPrivate` | src/middlewared/middlewared/schema.py:625-640 | two values dump alike if and only if they differ only at private positions |
| `Schema.DumpKeepsKeys` | src/middlewared/middlewared/schema.py:625-640 | a dictionary that is not masked keeps its keys in order |
| `Schema.DumpExactly` | src/middlewared/middlewared/schema.py:88-92 | what is shown for a value is exactly the value with the mask at private parts, at every depth |
| `Schema.PublicIsShown` | src/middlewared/middlewared/schema.py:625-640 | without private parts a value is shown as it is |
| `Schema.PrivateWithin` | src/middlewared/middlewared/schema.py:588-589 | a schema has private data if and only if some attribute at some depth is private |
| `Conformance.CleanConforms` | src/middlewared/middlewared/schema.py:458-477 | every cleaned value, however nested, has the type its schema describes, null and empty only where allowed, choices or conversions of choices, known keys only, and all required attributes and defaults present |
| `Conformance.DecimalRoundTrip` | src/middlewared/middlewared/schema.py:402-410 | a natural number survives the conversion to a string and back |
| `Cleaning.CleanValue` | src/middlewared/middlewared/schema.py:591-623 | the code computes the cleaned value, or the error and what became of the value |
| `Cleaning.CleanListItems` | src/middlewared/middlewared/schema.py:466-477 | the loop replaces the items one by one and stops at the first that no alternative accepts |
| `Cleaning.CleanItem` | src/middlewared/middlewared/schema.py:468-474 | the loop takes the first alternative that accepts what the ones before left of the item |
| `Cleaning.CleanGiven` | src/middlewared/middlewared/schema.py:604-613 | the loop replaces the given fields one by one and stops at the first that is not accepted |
| `Cleaning.PopulateDefaults` | src/middlewared/middlewared/schema.py:615-621 | the loop appends required attributes and defaults that are missing |
| `Cleaning.DumpValue` | src/middlewared/middlewared/schema.py:625-640 | the loop masks the fields in place |
| `Resolver.PatchMeaning` | src/middlewared/middlewared/schema.py:840-866 | a patch operation adds, replaces, edits or removes the part it names and no other, and fails only if there is nothing to edit or remove |
| `Resolver.OpsInOrder` | src/middlewared/middlewared/schema.py:848-866 | operations are applied one after the other, each to what the ones before it left, and a failure stays |
| `Resolver.OpOrder` | src/middlewared/middlewared/schema.py:849-866 | an added part comes last or keeps the place of the one it replaces, a removed part closes the gap, and other operations keep the names in order |
| `Registration.AttemptFacts` | src/middlewared/middlewared/schema.py:803-868 | an attempt that does not fail for good registers just what comes before the first missing name, none of it taken, changes nothing registered before, and succeeds if and only if no name is missing |
| `Registration.AttemptEval` | src/middlewared/middlewared/schema.py:803-868 | a successful attempt is evaluation in the registry that it leaves, also for references to schemas that it registers itself |
| `Registration.AttemptSound` | src/middlewared/middlewared/schema.py:15-20 | what an attempt registers stands for its definition, evaluated in that very registry |
| `Registration.AttemptSafe` | src/middlewared/middlewared/schema.py:803-868 | in part of a registry in which all definitions hold and patches apply, an attempt fails for good only over a name that is taken |
| `Registration.AttemptFree` | src/middlewared/middlewared/schema.py:803-868 | an attempt fails for good only where it comes to a patch that does not apply, or over a name that is taken |
| `Registration.AttemptProgress` | src/middlewared/middlewared/schema.py:546-551 | whatever the outcome, an attempt only replaces references by what they refer to |
| `Registration.ProgressAllNames` | src/middlewared/middlewared/schema.py:875-889 | the changed parameters need, give and register the same names as the original ones in every later registry |
| `Registration.ProgressAllMeaning` | src/middlewared/middlewared/schema.py:875-889 | the changed parameters have the same meaning as the original ones in every later registry |
| `Resolver.ResolveParams` | src/middlewared/middlewared/schema.py:546-551 | the loop replaces parameters one by one, and what was replaced before a failure stays replaced |
| `Resolver.ResolveParam` | src/middlewared/middlewared/schema.py:675-680 | the parts are resolved first, then the attribute is registered |
| `NameRuns.ResolvedIsResolvable` | src/middlewared/middlewared/schema.py:892-904 | the loop resolves all methods only if the least fixed point of registration covers their needs |
| `NameRuns.TroubleIsFatal` | src/middlewared/middlewared/schema.py:875-901 | a run in which an attempt waits after registering what it will register again, or a pass registers but resolves nothing, never resolves all methods |
| `NameRuns.DryVerdict` | src/middlewared/middlewared/schema.py:892-904 | in the given order all methods are resolved if and only if the least fixed point covers all needs and the run meets no such trouble |
| `NameRuns.OrderedIsCalm` | src/middlewared/middlewared/schema.py:892-904 | methods that after their first registration need nothing new never meet trouble |
| `NameRuns.GivesUpEarly` | src/middlewared/middlewared/schema.py:893-904 | two methods that the loop gives up on in one order and resolves in the other |
| `MethodResolver.AttemptNames` | src/middlewared/middlewared/schema.py:875-889 | what an attempt on changed parameters registers, and whether it succeeds, is foretold by the names in the original ones |
| `MethodResolver.AttemptFits` | src/middlewared/middlewared/schema.py:875-889 | where schemas fit together an attempt fails for good if and only if it registers an attribute or a patch that is a parameter again; nested patches are harmless |
| `MethodResolver.AttemptVerdict` | src/middlewared/middlewared/schema.py:875-889 | an attempt on changed parameters fails for good if and only if it registers again what the original ones register, or comes to a patch that does not apply |
| `MethodResolver.RunFollows` | src/middlewared/middlewared/schema.py:892-904 | from any state on the loop ends as the run on names does, unless a patch does not apply |
| `MethodResolver.LoopVerdict` | src/middlewared/middlewared/schema.py:892-904 | for every list of methods: all are resolved if and only if the schemas fit together and the run on names resolves all; the loop fails if and only if the run on names does or an attempt comes to a patch that does not apply; otherwise it gives up |
| `MethodResolver.MethodsOutcome` | src/middlewared/middlewared/schema.py:892-904 | all methods are resolved if and only if the schemas fit, the least fixed point covers all needs, and the run meets no trouble |
| `MethodResolver.StumbledForGood` | src/middlewared/middlewared/schema.py:875-901 | in every state, a method that has registered what it will register again is never resolved |
| `MethodResolver.CalmVerdict` | src/middlewared/middlewared/schema.py:892-904 | without trouble the loop fails if and only if the schemas do not fit, and otherwise resolves all exactly if the least fixed point covers all needs |
| `MethodResolver.OrderedVerdict` | src/middlewared/middlewared/schema.py:892-904 | so for ordered methods the three outcomes are told apart exactly |
| `MethodResolver.RegistryUnique` | src/middlewared/middlewared/schema.py:892-904 | the registry in which all definitions hold is unique, however the methods are listed |
| `MethodResolver.SameRegistry` | src/middlewared/middlewared/schema.py:892-904 | whenever two orders are both resolved, registry and resolved parameters are the same |
| `MethodResolver.OrderIndependent` | src/middlewared/middlewared/schema.py:892-904 | for ordered methods the outcome is the same in any order, too |
| `MethodResolver.RetryTrap` | src/middlewared/middlewared/schema.py:875-901 | two methods whose needs are covered, which fail in one order and are resolved in the other |
| `MethodResolver.ResolveMethods` | src/middlewared/middlewared/schema.py:892-904 | the loops end for every input, with the exact outcome above and a registry in which all definitions hold |
| `MethodResolver.Pass` | src/middlewared/middlewared/schema.py:893-902 | one pass over the pending methods against the shared registry |
| `Alerts.RunSourceOneToOne` | src/middlewared/middlewared/plugins/alert.py:551-614 | after a source run identities and uuids correspond one to one if and only if no check reported the same alert twice |
| `Alerts.StepOneToOne` | src/middlewared/middlewared/plugins/alert.py:549-639 | every step keeps that correspondence, with blocked and unavailable sources, skipped nodes, one-shot alerts and dismissals |
| `Alerts.StepComes` | src/middlewared/middlewared/plugins/alert.py:616-639 | every alert after a step was there before with the same uuid and date, or is new, not dismissed and under a new uuid |
| `Alerts.StepKeeps` | src/middlewared/middlewared/plugins/alert.py:616-639 | an alert that is there before and after a step keeps uuid, date and, unless it was set, the dismissed flag |
| `Alerts.RunSourceLeaves` | src/middlewared/middlewared/plugins/alert.py:551-614 | afterwards a source has exactly the alerts that were reported on either node, a blocked one keeps its own, and other sources are left alone |
| `Alerts.HandledTaken` | src/middlewared/middlewared/plugins/alert.py:616-639 | a reported alert keeps uuid, date and flag of the one with its identity, or else has a new uuid, is not dismissed and dates from what was reported or from now; arguments and last occurrence are the new ones |
| `Alerts.StepFollows` | src/middlewared/middlewared/plugins/alert.py:549-639 | every step, alert by alert and in order: a source run keeps other sources' alerts and appends those of the two checks, a one-shot alert comes last, and other steps remove or mark exactly what they name |
| `Alerts.RunOneToOne` | src/middlewared/middlewared/plugins/alert.py:549-639 | the correspondence holds in every state of a run |
| `Alerts.UuidForever` | src/middlewared/middlewared/plugins/alert.py:625-639 | throughout a run a uuid stands for one identity with one date |
| `AlertPolicies.ReportExact` | src/middlewared/middlewared/plugins/alert.py:98-110 | a report names as gone only what was known and as new only what was not, and then exactly the current alerts are known |
| `AlertPolicies.ReportsAddUp` | src/middlewared/middlewared/plugins/alert.py:91-110 | over every run the reports and dismissals reproduce the last snapshot |
| `AlertPolicies.NeverReports` | src/middlewared/middlewared/plugins/alert.py:230-235 | the policy `NEVER` reports nothing in any run |
| `AlertPolicies.OncePerKey` | src/middlewared/middlewared/plugins/alert.py:98-108 | with a clock that does not go back, a policy is due at most once per key value |
| `AlertPolicies.CancelPairs` | src/middlewared/middlewared/plugins/alert.py:443-448 | gone and new alerts of one class and key cancel out: the balance is kept and one side is empty |
| `AlertPolicies.PutOrder` | src/middlewared/middlewared/plugins/alert.py:99 | a uuid that is met again keeps its place in the dictionary of alerts, and a new one comes last |
| `AlertPolicies.ByUuidMembers` | src/middlewared/middlewared/plugins/alert.py:99 | the dictionary holds, once per uuid, the last alert with it |
| `AlertPolicies.ReportContents` | src/middlewared/middlewared/plugins/alert.py:98-110 | an alert is reported as new, or as gone, if and only if the policy is due and it is a last one of its uuid that was not known, or a known one whose uuid no alert has |
| `AlertPolicies.KeyExactly` | src/middlewared/middlewared/plugins/alert.py:230-235 | two moments have one key if and only if they are equal, in one hour, on one day, or always, as the policy says |
| `AlertPolicies.CountExactly` | src/middlewared/middlewared/plugins/alert.py:443-445 | alerts are the same for cancelling if and only if class and key are |
| `AlertPolicies.AlertPolicy.constructor` | src/middlewared/middlewared/plugins/alert.py:92-96 | a new policy knows no alert and no key value |
| `AlertPolicies.AlertPolicy.ReceiveAlerts` | src/middlewared/middlewared/plugins/alert.py:98-110 | the object update and the reports are those of the policy step |
| `AlertPolicies.AlertPolicy.Pop` | src/middlewared/middlewared/plugins/alert.py:354-355 | the policy forgets one uuid |
| `AlertServices.AlertService.HandleAlert` | src/middlewared/middlewared/plugins/alert.py:616-639 | the alert takes uuid, date and flag of the first one of its identity, or gets the new uuid |
| `AlertServices.AlertService.RunSource` | src/middlewared/middlewared/plugins/alert.py:551-614 | the object update is the source step, and keeps the correspondence if and only if no check reported an alert twice |
| `AlertServices.AlertService.OneshotCreate` | src/middlewared/middlewared/plugins/alert.py:748-755 | the object update is the create step and keeps the correspondence |
| `AlertServices.AlertService.OneshotDelete` | src/middlewared/middlewared/plugins/alert.py:771-778 | removing the alerts one by one leaves exactly the unrelated ones and those that the class leaves |
| `AlertServices.AlertService.DeleteOnDismiss` | src/middlewared/middlewared/plugins/alert.py:351-355 | the alert leaves the list, and every policy forgets exactly its uuid |
| `AlertServices.AlertService.Dismiss` | src/middlewared/middlewared/plugins/alert.py:328-349 | dismissing deletes or flags as the class says, and every policy forgets exactly what was deleted |
| `AlertServices.DismissedExactly` | src/middlewared/middlewared/plugins/alert.py:328-349 | which alerts are left after a dismissal, as an equivalence for each of the three ways |
| `AlertServices.NothingDismissed` | src/middlewared/middlewared/plugins/alert.py:333-335 | an unknown uuid leaves the list as it is |
| `Md4.FillerIsLeast` | src/middlewared/middlewared/plugins/account.py:104-106 | the padding is the shortest that reaches 448 bits modulo 512, section 3.1 of RFC 1320 |
| `Md4.PaddedLength` | src/middlewared/middlewared/plugins/account.py:104-107 | the padded length is a positive multiple of 64 bytes |
| `Md4.PaddedEnd` | src/middlewared/middlewared/plugins/account.py:103-107 | the last eight bytes are the length in bits modulo 2^64, section 3.2 of RFC 1320 |
| `Md4.PaddedFront` | src/middlewared/middlewared/plugins/account.py:102-106 | the message comes first, then a byte with only its highest bit set, then zero bytes, section 3.1 |
| `Md4.InitialBytes` | src/middlewared/middlewared/plugins/account.py:101 | the registers start, byte by byte, as section 3.3 lists them |
| `Md4.ConstantRoots` | src/middlewared/middlewared/plugins/account.py:134-142 | the constants of rounds 2 and 3 are the square roots of 2 and 3 in 30 binary places, section 3.4 |
| `Md4.WordAtIsValue` | src/middlewared/middlewared/plugins/account.py:132 | words are read low-order byte first |
| `Md4.BlockWords` | src/middlewared/middlewared/plugins/account.py:132 | a block is sixteen words, each of its own four bytes, low-order byte first |
| `Md4.PackedWords` | src/middlewared/middlewared/plugins/account.py:146 | the digest holds A, B, C and D in this order, low-order byte first |
| `Bits.AndBits` | src/middlewared/middlewared/plugins/account.py:111-122 | the bitwise and works bit by bit, on negative integers too |
| `Bits.OrBits` | src/middlewared/middlewared/plugins/account.py:111-122 | the bitwise or works bit by bit |
| `Bits.XorBits` | src/middlewared/middlewared/plugins/account.py:117-118 | the exclusive or works bit by bit |
| `Md4.MixBits` | src/middlewared/middlewared/plugins/account.py:111-118 | bit by bit, F is a choice by x, G is the majority and H the parity, section 3.4 |
| `Md4.TablesAgree` | src/middlewared/middlewared/plugins/account.py:124-129 | index and shift tables are those of the 48 operations listed in section 3.4 of RFC 1320 |
| `Md4.MixAgrees` | src/middlewared/middlewared/plugins/account.py:111-118 | the three auxiliary functions on unbounded integers are F, G and H on 32-bit words |
| `Md4.LrotIsRotate` | src/middlewared/middlewared/plugins/account.py:120-122 | masking, shifting and joining is a rotation of the 32-bit word |
| `Md4.RotationIsRenaming` | src/middlewared/middlewared/plugins/account.py:134-142 | rotating the registers after a step is the renaming ABCD, DABC, CDAB, BCDA of the standard |
| `Md4.StepAgrees` | src/middlewared/middlewared/plugins/account.py:134-142 | a step on rotating registers is the renamed operation of the standard |
| `Md4.RotatingRound` | src/middlewared/middlewared/plugins/account.py:134-142 | the loop over 16 steps is a round of the standard, and every register stays a 32-bit word |
| `Md4.Pad` | src/middlewared/middlewared/plugins/account.py:102-107 | the loop pads as the standard says |
| `Md4.CompressChunk` | src/middlewared/middlewared/plugins/account.py:132-144 | a chunk is processed as the standard says |
| `Md4.HashChunks` | src/middlewared/middlewared/plugins/account.py:131-144 | all chunks are processed in order |
| `Md4.Digest` | src/middlewared/middlewared/plugins/account.py:93-146 | for every byte string the digest is the one of sections 3.1 to 3.5 of RFC 1320 |
| `LogCutter.SegmentsPartition` | src/middlewared/middlewared/plugins/cloud_sync.py:328-377 | complete progress messages and other lines partition the input |
| `LogCutter.SegmentsBlocks` | src/middlewared/middlewared/plugins/cloud_sync.py:328-377 | each message is a header, lines that match, and a blank line |
| `LogCutter.OutputIsKept` | src/middlewared/middlewared/plugins/cloud_sync.py:328-383 | from any state, outputs and final flush are the input without the messages whose number is not a multiple of the interval |
| `LogCutter.KeptExactly` | src/middlewared/middlewared/plugins/cloud_sync.py:328-377 | a line outside messages is always kept, and a message if and only if the number of messages before it is a multiple of the interval |
| `LogCutter.BlankExactly` | src/middlewared/middlewared/plugins/cloud_sync.py:334 | a line ends a message if and only if nothing is left of it without its trailing line feeds |
| `LogCutter.RcloneVerboseLogCutter.constructor` | src/middlewared/middlewared/plugins/cloud_sync.py:322-326 | the filter starts with an empty buffer and count zero |
| `LogCutter.RcloneVerboseLogCutter.Notify` | src/middlewared/middlewared/plugins/cloud_sync.py:328-377 | the object update is the step of the filter, and the buffer is always an unfinished message |
| `LogCutter.RcloneVerboseLogCutter.Flush` | src/middlewared/middlewared/plugins/cloud_sync.py:379-383 | the buffer is handed out and emptied |
| `LogCutter.CutLog` | src/middlewared/middlewared/plugins/cloud_sync.py:328-383 | for every input only whole messages are removed, and the k-th one is kept exactly if k is a multiple of the interval |
| `Luns.NthFreeIsNth` | src/middlewared/middlewared/etc_files/ctld.py:379-384 | a number is the k-th free one if and only if it is free with k free numbers below it |
| `Luns.LunExactly` | src/middlewared/middlewared/etc_files/ctld.py:372-387 | a row is written if and only if it is enabled and not locked; it gets its own number, or a number that no row has, with as many such numbers below it as automatic rows written before it |
| `Luns.LinesExactly` | src/middlewared/middlewared/etc_files/ctld.py:372-387 | the lines are those of the written rows, in order, with name and number of the row |
| `Luns.LunsDistinct` | src/middlewared/middlewared/etc_files/ctld.py:372-387 | with distinct explicit numbers no number is given out twice |
| `Luns.OthersKeepTheirLun` | src/middlewared/middlewared/etc_files/ctld.py:376-378 | locking, unlocking, enabling or disabling an explicitly numbered extent moves no other row |
| `Luns.AutomaticRowsShift` | src/middlewared/middlewared/etc_files/ctld.py:376-384 | when an automatic row is skipped, exactly the later automatic rows that are emitted change their number, each to the free number before its own |
| `Luns.SkipUsed` | src/middlewared/middlewared/etc_files/ctld.py:380-384 | the search ends on the next free number |
| `Luns.AssignLuns` | src/middlewared/middlewared/etc_files/ctld.py:365-387 | the loop writes explicit numbers as they are, and gives the k-th automatic row the k-th free number |

## Left out

- Idempotence.IdempotentExactly: lists in which a kind of item with parts comes before another one are excluded; for them `CleanIdempotent` has a condition that suffices and `AlternativesBreak` a case that fails.
- Stability.StableExactly: the same lists are excluded; `StableFixed` holds for them.
- Semantics.CleanExactly: lists in which a kind of item with parts comes before another one are excluded, because a failed attempt leaves changes behind that the next kind sees.
- MethodResolver.LoopVerdict: assumes that no name is registered twice and that patches add resolved attributes.
- Resolver.PatchMeaning: an `edit` sets attributes of the part. One that puts further schemas into it, which are then resolved in turn and may have to wait, is not modelled (src/middlewared/middlewared/plugins/vm.py:1555-1567 installs a patch as the items of a list).
- JobsQueues.JobsQueue.AbortJob: the cancellation of a running body is an outcome that may or may not occur, not a consequence of the request.
- JobsQueues.JobsQueue.StartJob: opening log files and pipes is taken not to fail.
- WinAcl.ThirdApplication: of `acl_is_trivial_np` only that a trivial ACL has no inheritance flags is assumed.
- WinAcl.WindowsAclInfo.ChooseAcl: whether an object is a directory is an input; the bit test on its mode is not modelled.
- Alerts.UuidForever: that drawn uuids do not repeat is an assumption; dates are whole numbers without time zones, and expiry of one-shot alerts is any number of removals.
- AlertServices.AlertService.RunSource: the check and the merge are one step; a dismissal while the check is awaited is not interleaved with it.
- AlertPolicies.OncePerKey: time is counted in whole seconds.
- LogCutter.CutLog: the regular expressions are two arbitrary predicates, one for headers and one for lines of a message.
- Job and lock objects are positions in growing sequences; sharing of alert, attribute and value objects between lists is not modelled, every list holds its own values.
- Values are cleaned as values, with what a failed attempt leaves behind as part of the result, instead of updating shared dictionaries; digits are those of ASCII, and a dictionary attribute is stored under its own name.
- Invalid parameter definitions, and attributes for floats, paths, times, addresses, files and cron schedules.
- Alert levels and products in `send_alerts`, the scheduling of alert sources, their blocking by locks with a timeout, and failover detection; which checks run on which node is an input.
- The locks on file system paths of cloud sync tasks, and the groups of a user.
- Memory allocation and system calls of `winacl`, its other operations, and the directory walk.
- Parsing of the alias file; the rest of the `ctld` configuration; the caller of the MD4 fallback.
- Websocket, REST, database, subprocess, mail and event delivery.

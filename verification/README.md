# Henry: verified models of the sandbox and its text and output boundaries

Henry is a Slack bot that runs model-written Python in containers. These Dafny modules model the parts of
it whose correctness is not local to one function, and prove what they are for.

- **Sandbox session life cycle** (`SessionProtocol`, `SessionInvariants`, `SessionTheorems`,
  `SessionProgress`, `SessionForgets`, `SessionRemovals`, `SessionLeaks`, `SessionObjects`, `LockTables`). The
  slot registry of
  `henry/sandbox/tools.py` on top of the container registry of `henry/sandbox/docker.py`, as a step system.
  Any number of tool, clear, destroy and reap tasks interleave; one action is one stretch of code between
  two suspension points. Cancellation is allowed at every suspension point, once per task. The threads that
  remove containers are separate actors. One invariant holds in every reachable state; ownership of
  containers, mutual exclusion, teardown, deadlock freedom and termination follow from it. `SessionObjects`
  has the atomic stretches in the source's form, objects and dictionaries updated in place, each proved to
  have the effect that the step system gives it.
- **Output drain** (`Text`, `Json`, `JsonStrings`, `CellJson`, `KernelDrain`, `KernelFit`, `KernelLoops`,
  `KernelTheorems`, `KernelRendering`, `KernelKeeps`, `KernelRaises`). `henry/sandbox/kernel_protocol.py` over
  every trace of messages, empty reads, channel failures and deadlines, with JSON text and its UTF-8 size modelled character by character (string escapes:
  section 7 of RFC 8259; UTF-8: section 3 of RFC 3629). The class `Drain` has the source's closures and
  loops, and its methods are proved against functions that find the same result by plain recursion.
- **Host decoder** (`HostDecode`, `KernelToHost`, `CellVerdict`). The validation in
  `henry/sandbox/docker.py`, what it accepts exactly, the round trip from kernel messages to the cell
  result, and what becomes of the session for every end of the call.
- **Text and paths** (`Sanitize`, `ToolResults`, `ToolSizes`, `ToolKeeps`, `Paths`, `RepoArchive`,
  `RepoTheorems`, `SlackChunks`).
- **Orchestrator** (`Runner`, `ThreadLocks`). One request under its lock with every callback free to return,
  raise or be cancelled; and the per-thread locks as a step system.

## What does not hold in general

- *No orphaned container.* True of every run except at five kinds of step, which `SessionTheorems.Drops`
  lists: a cancellation while the container is being created, while the logs of a failed start are read, or
  while `start` or `clear` waits for the lock of the session it removes; and `clear` with `destroy=False`.
  `SessionTheorems.RunsNeverOrphan` proves that a run is free of orphans if and only if it takes none of
  these steps. `SessionLeaks.CancelledLogReadOrphans` and `SessionLeaks.CancelledClearOrphans` give runs that
  leave a container behind.
- *A cached session is alive when nothing is left to run.* True of runs without removers and cancellations
  (`SessionForgets.StuckCachedIsAlive`). A reaped session stays cached (`SessionLeaks.ReapedStaysCached`)
  until a cell finds it dead and forgets it (`SessionForgets.DeadCellForgets`).
- *Tool results are capped as a whole* (docstring, `henry/integrations/mcp.py:135`). A result with a part
  that JSON cannot express is capped string by string only (`ToolResults.WholeResultUncapped`). If the
  tool's value can be expressed, the whole result carries at most 50,000 characters, and the note besides
  if it is a string (`ToolSizes.ResultBounded`).
- *Requests for one Slack thread never overlap.* True of requests that share a `ThreadLocks`. Each request
  called without one gets its own, and such requests do overlap (`ThreadLocks.OwnRegistriesOverlap`).
- *Foreign kernel traffic is inert.* Deleting it changes nothing unless what is left of the trace ends in the
  channel failure that gives up, and for a cell that succeeds or times out that is exact
  (`KernelTheorems.ForeignTrafficExactly`). A foreign message can matter because it resets the failure count
  before its parent is looked at (`KernelTheorems.ForeignMessageResetsFailures`).
- *The drain always returns a result.* It raises if and only if an own error message it reads has a name or
  value with a lone surrogate, or a traceback that reaches a frame with one (`KernelRaises.ResultExists`),
  since these fields are cut by their bytes. If everything read is within the budgets, that is any error
  with a surrogate in a field or frame (`KernelRaises.RoomyDrainRaisesExactly`).
- *A chunk has at most `limit` characters.* It has one more, a final newline, exactly if a newline stands
  `limit` characters after the chunk's start (`SlackChunks.LimitKeptExactly`); `SlackChunks.OverLimit` is an
  instance, and `SlackChunks.LimitKept` a check on the text alone that rules it out.
- *A working directory `/`.* `_safe_path` then refuses every path but those that begin with exactly two
  slashes (`Paths.RootWorkdir`).

## Assumptions

- Container ids are fresh. A task is cancelled at most once, so that no cancellation hits a shielded
  cleanup that an earlier one began.
- A lock may go to any of the tasks that wait for it. The order of arrival that `asyncio.Lock` keeps is one
  of these orders, so what holds of every run of the model holds of the program.
- `json.loads` after `json.dumps` gives back the value; of the parser only the reading of strings is modelled
  (`JsonStrings.QuotedReadsBack`).
- White space, word characters and case folding are parameters of the sanitizer (`Sanitize.Pattern`), with
  only `Sanitize.Sane` required of them.

## Model

| member | source | states |
|---|---|---|
| SessionInvariants.StepKeeps | henry/sandbox/docker.py:276-315 | every step of every task, thread and cancellation, a cancelled cell's shielded teardown before and after it marks the session included, keeps the invariant: users counts, both lock tables, registered iff not destroyed, one removal attempt each, what a task holds is of its key |
| SessionInvariants.Reachable | henry/sandbox/tools.py:132-148 | the invariant holds after every run from the empty state |
| SessionInvariants.UsedSlotIsRegistered | henry/sandbox/tools.py:145-148 | a slot that some task uses is the one registered for that task's key, so the `is slot` guard is never false |
| SessionTheorems.OneInsidePerKey | henry/sandbox/tools.py:132-142 | at most one task per (sandbox, run) is inside the locked body, although slots are created and reclaimed |
| SessionTheorems.SlotIsRegistered | henry/sandbox/tools.py:134-136 | from entering to leaving, a task's slot stays registered for its key and has users |
| SessionTheorems.UnregisteredSlotIsDead | henry/sandbox/tools.py:145-148 | a slot outside the registry has no users, no holder and no cached session |
| SessionTheorems.OrphanExactly | henry/sandbox/tools.py:97-129 | from a state in which every live container is cached for its key or in the hands of the task inside that key's slot, a step leads out of such states iff it is one of the dropping steps |
| SessionTheorems.NeverOrphansIff | henry/sandbox/docker.py:158-180 | the same over whole runs from any invariant state without orphans |
| SessionTheorems.RunsNeverOrphan | henry/sandbox/tools.py:57-129 | a run of any tasks never orphans a container iff it takes no dropping step |
| SessionTheorems.OneLiveSessionPerKey | henry/sandbox/tools.py:105-116 | without orphans a run id has at most one live container at a time |
| SessionTheorems.OnlyClearEvictsLive | henry/sandbox/tools.py:119-129 | a cached session is only ever replaced or dropped when it is dead, or by a clear: a late failure of an old session never evicts its successor |
| SessionTheorems.QuietAfterClear | henry/sandbox/tools.py:97-102 | once a clear has emptied its slot, no container is live for its key in any continuation that starts none |
| SessionTheorems.OnlyHolderDestroys | henry/sandbox/docker.py:450-475 | a session goes from live to destroyed only in a step of the task that holds its lock |
| SessionTheorems.TeardownIsFinal | henry/sandbox/docker.py:470-500 | a destroyed session stays so and out of the registry; container and volume removal are each attempted at most once, and once each when removal ends, failures included |
| SessionTheorems.CellsRunOnLiveSessions | henry/sandbox/docker.py:276-284 | while a cell runs its session is registered, not destroyed, and locked by its task |
| SessionTheorems.VerdictIsExact | henry/sandbox/docker.py:287-315 | when exec_cell returns, session_invalidated is true iff the session is destroyed |
| CellVerdict.ExecCellExactly | henry/sandbox/docker.py:283-342 | a valid response of an exec that succeeded and is within two mebibytes is returned as it is; any other end of the call gives one error output and invalidates the session |
| CellVerdict.TimedOutCells | henry/sandbox/docker.py:288-315 | a cell's result is a timeout iff the call timed out or a valid response says so |
| CellVerdict.CellEnds | henry/sandbox/docker.py:283-315 | over the step system: a call that timed out or failed, a nonzero exit, an oversized or malformed response, and a response that says timed out leave the session dead; every other response leaves it alive |
| SessionForgets.ForgetDrops | henry/sandbox/tools.py:127-129 | forgetting a session leaves its slot without it and every other cached session in place |
| SessionForgets.DeadCellForgets | henry/sandbox/tools.py:60-64 | a cell that finds its session dead, before or after waiting for it, goes on to forget it |
| SessionForgets.ForgetInvKept | henry/sandbox/tools.py:57-67 | every step but a cancellation or a new remover keeps: each dead cached session has a task on its way to forget it, nobody uses a session that is not ready, and sessions are used under their own key |
| SessionForgets.StuckCachedIsAlive | henry/sandbox/tools.py:119-129 | where a run without removers and cancellations ends, every cached session is alive |
| SessionForgets.FetchedIsCached | henry/sandbox/tools.py:105-116 | in every run, whoever leaves its slot with a session to use leaves that session cached in the slot of its own key |
| SessionRemovals.ReaperReaps | henry/sandbox/docker.py:431-440 | a reaper that ends uncancelled leaves every session of its list dead, or all up to one whose removal raised |
| SessionRemovals.CancelledCellDies | henry/sandbox/docker.py:285-287 | in every continuation, the session of a cell that was cancelled is dead once its task is past marking it |
| SessionRemovals.CellsAreAllowed | henry/sandbox/docker.py:263-266 | no cell runs with a timeout that is refused, and no other kind of task runs one |
| SessionProgress.NoDeadlock | henry/sandbox/tools.py:97-116 | while some task is unfinished, some task or removal thread can step |
| SessionProgress.StepDecreases | henry/sandbox/docker.py:431-460 | every step but a new task, cancellations included, decreases a measure |
| SessionProgress.RunsEnd | henry/sandbox/tools.py:57-67 | a run without new tasks is no longer than that measure |
| SessionProgress.StuckMeansClean | henry/sandbox/tools.py:132-148 | where no step is left, all tasks are done, all locks free, a slot is registered iff it caches a session, and every destroyed session had both removals attempted once |
| SessionProgress.StuckLiveIsCached | henry/sandbox/tools.py:97-102 | where a run without orphans ends, each live container is the one cached for its key, where the next clear finds it |
| SessionLeaks.CancelledLogReadOrphans | henry/sandbox/docker.py:171-180 | for every run id and tool there is a run that orphans a container: a failed start cancelled while it reads the logs |
| SessionLeaks.CancelledClearOrphans | henry/sandbox/tools.py:97-102 | for every run id there is a run that orphans a healthy container: a clear cancelled while it waits for the lock that a running cell holds |
| SessionLeaks.ReapedStaysCached | henry/sandbox/docker.py:431-440 | for every run id there is a finished run whose cached session is dead: it was reaped |
| SessionObjects.SlotRegistry.SetDefault | henry/sandbox/tools.py:135 | `setdefault` yields the registered slot, or registers a fresh one, and changes nothing else |
| SessionObjects.SlotRegistry.Enter | henry/sandbox/tools.py:134-136 | the in-place registry block on entry has the step system's effect, for a new and for a known key |
| SessionObjects.SlotRegistry.Leave | henry/sandbox/tools.py:145-148 | the same for the block on leaving |
| SessionObjects.SlotRegistry.Cached | henry/sandbox/tools.py:110-112 | what `_session_for` finds under the slot lock decides between use and start as in the step system |
| SessionObjects.SlotRegistry.Keep | henry/sandbox/tools.py:115 | caching a started session changes that slot and nothing else |
| SessionObjects.SlotRegistry.Forget | henry/sandbox/tools.py:127-129 | forgetting drops the cached session iff it is the stale one, and changes nothing else |
| SessionObjects.SlotRegistry.Wipe | henry/sandbox/tools.py:98-102 | a clear empties the cache and goes on to destroy exactly what was cached, if asked to |
| SessionObjects.SessionObject.Remove | henry/sandbox/docker.py:477-500 | removal attempts the volume even if the container failed, and raises iff either failed |
| SessionObjects.SessionRegistry.Register | henry/sandbox/docker.py:158-165 | a started session is registered live and untouched |
| SessionObjects.SessionRegistry.Mark | henry/sandbox/docker.py:470-475 | the first stretch of a removal marks and unregisters the session once; a second call does nothing |
| Text.CapIsLongestPrefix | henry/sandbox/kernel_protocol.py:34-38 | cutting the encoding at `limit` bytes and decoding with errors ignored gives the longest prefix of whole characters within the limit, and reports a cut iff there was one |
| Text.EncodeDecode | henry/sandbox/kernel_protocol.py:30-38 | decoding the encoding gives back the text |
| Json.DumpsSize | henry/sandbox/kernel_protocol.py:41-42 | the byte size and encodability of the printed JSON, for every value, in terms of its parts |
| JsonStrings.QuotedReadsBack | henry/sandbox/kernel_protocol.py:41-42 | every string is read back from its printed form, whatever its characters and whatever follows (section 7 of RFC 8259) |
| KernelFit.FitsBySize | henry/sandbox/kernel_protocol.py:65-69 | `_fits` as arithmetic on sizes: the item and the list with its separators are within their budgets and everything is encodable |
| KernelFit.PrefixFits | henry/sandbox/kernel_protocol.py:65-69 | if a text fits, so does each of its prefixes, escapes and unencodable characters included |
| KernelFit.LongestFitUnique | henry/sandbox/kernel_protocol.py:92-100 | a prefix that fits and whose successor does not is the one that a linear scan finds |
| KernelFit.FitTextIsLongest | henry/sandbox/kernel_protocol.py:79-100 | the result is a prefix that fits unless empty, is within the field limit, cannot be extended, and is uncut iff the whole text fits |
| KernelLoops.Drain.FitPrefix | henry/sandbox/kernel_protocol.py:79-100 | the binary search finds the longest prefix that a linear scan finds |
| KernelLoops.Drain.PushError | henry/sandbox/kernel_protocol.py:142-179 | the loop over error fields and frames, updating in place, gives what the recursive form gives |
| KernelLoops.Drain.ReadIopub | henry/sandbox/kernel_protocol.py:181-232 | the read loop ends as the recursion over the trace does, with the same outputs, flag, status and count |
| KernelLoops.Execute | henry/sandbox/kernel_protocol.py:45-263 | the whole drain equals its functional form, bad budgets and exceptions included |
| KernelRendering.StreamDisplays | henry/sandbox/kernel_protocol.py:119-125 | a stream is rendered with its own text and name; defaults apply only where a field is absent |
| KernelRendering.BundleDisplays | henry/sandbox/kernel_protocol.py:132-138 | a bundle is rendered with its own data and metadata unless they are absent or falsy, and its own count |
| KernelRendering.ErrorDisplays | henry/sandbox/kernel_protocol.py:142-165 | an error is rendered with its own name and value and one stripped frame for each of its traceback |
| KernelRendering.AnsiLengthExactly | henry/sandbox/kernel_protocol.py:16 | the ANSI matches found are those of the pattern, given declaratively |
| KernelRendering.StripsExactly | henry/sandbox/kernel_protocol.py:26-27 | a stripped frame is the raw frame without exactly its leftmost, non-overlapping ANSI matches |
| KernelRendering.CountExactly | henry/sandbox/kernel_protocol.py:221-253 | the count returned is the first matching reply's if it has one, otherwise the last one an own input or result carried, otherwise 0 |
| KernelKeeps.StreamKeeps | henry/sandbox/kernel_protocol.py:119-130 | of a stream the longest prefix that fits is kept, and nothing only where there is no place |
| KernelKeeps.BundleKeeps | henry/sandbox/kernel_protocol.py:102-140 | a bundle is kept whole if there is a place, otherwise a placeholder with the longest reason that fits, if there is a place for it |
| KernelKeeps.ErrorKeeps | henry/sandbox/kernel_protocol.py:142-179 | of an error's name, value and frames in turn the longest prefixes within the field limit that fit are kept, up to the first frame that is not kept whole |
| KernelTheorems.TruncatedExactly | henry/sandbox/kernel_protocol.py:65-179 | `truncated` is false iff the outputs are the full in-order rendering of every own stream, bundle and error message read |
| KernelRaises.FramesRaiseExactly | henry/sandbox/kernel_protocol.py:164-177 | the loop over a traceback raises iff some frame has no UTF-8 form and all frames before it are encodable, within the field limit, and fit whole |
| KernelRaises.HandleRaisesExactly | henry/sandbox/kernel_protocol.py:142-179 | handling a message raises iff it is an error whose name or value has no UTF-8 form, or whose traceback reaches such a frame |
| KernelRaises.ResultExists | henry/sandbox/kernel_protocol.py:34-62 | bad budgets are refused, exactly; the drain raises iff some own error it reads does, with the outputs that the events before it leave |
| KernelRaises.RoomyDrainRaisesExactly | henry/sandbox/kernel_protocol.py:34-38 | if the full rendering and the error fields read are within their budgets, the drain raises iff some own error read has a field or frame without a UTF-8 form |
| KernelTheorems.OutputsInOrder | henry/sandbox/kernel_protocol.py:214-232 | outputs follow message order, at most one per message, each a prefix-wise cut or a placeholder of its message |
| KernelTheorems.BudgetsHold | henry/sandbox/kernel_protocol.py:65-77 | on every exit, timeouts included, the number of outputs, each output's bytes and the list's bytes are within budget |
| KernelTheorems.StatusExactly | henry/sandbox/kernel_protocol.py:228-255 | the status is "ok" iff the loop left on own idle, no own error was read, and the first matching shell reply said "ok" |
| KernelTheorems.TimedOutExactly | henry/sandbox/kernel_protocol.py:183-197 | the result is a timeout iff no event before the deadline ends the loop |
| KernelTheorems.FiveFailuresEnd | henry/sandbox/kernel_protocol.py:202-213 | five channel failures with no message between them end the loop, empty reads notwithstanding |
| KernelTheorems.BrokenExactly | henry/sandbox/kernel_protocol.py:202-213 | the loop gives up only if the first event of the trace that ends it is a channel failure, and then always, unless it raised before |
| KernelTheorems.ForeignTrafficInert | henry/sandbox/kernel_protocol.py:213-215 | deleting other executions' messages and replies changes nothing, unless the first event that ends what is left is a channel failure |
| KernelTheorems.ForeignTrafficExactly | henry/sandbox/kernel_protocol.py:213-215 | for a cell that succeeds or times out, the result survives the deletion iff that is not so |
| KernelTheorems.FailureFreeInert | henry/sandbox/kernel_protocol.py:213-215 | on traces without channel failures the deletion changes nothing |
| KernelTheorems.ForeignMessageResetsFailures | henry/sandbox/kernel_protocol.py:207-215 | a trace on which deleting one foreign message turns "ok" into "error" |
| KernelToHost.DecodeOutputExactly | henry/sandbox/docker.py:344-384 | an output is accepted as `o` iff it carries exactly the fields of `o` and they are valid: nothing malformed passes or is reinterpreted |
| KernelToHost.DecodeResultExactly | henry/sandbox/docker.py:317-342 | the same for a whole response, its outputs in order |
| KernelToHost.OutputRoundTrip | henry/sandbox/docker.py:344-384 | every valid output survives encoding and decoding |
| KernelToHost.KernelToHostRoundTrip | henry/sandbox/kernel_protocol.py:257-263 | for every trace of well-formed messages the host accepts the result with the same status, flags, count and outputs, not invalidated |
| KernelToHost.ResponseUnderLimit | henry/sandbox/kernel_entry.py:69 | with default budgets and a 64-bit count the printed response is encodable and under the host's limit |
| KernelToHost.CellEndToEnd | henry/sandbox/docker.py:295-315 | from kernel messages to cell result: what the drain saw is what the caller gets, and the session is invalidated iff the cell timed out |
| Sanitize.ReservedAreGood | henry/sanitize.py:7 | the reserved names meet what the sanitizer's theorems require of names |
| Sanitize.ReservedSane | henry/sanitize.py:7-15 | what the theorems require of a pattern is met by the reserved names on ASCII text |
| Sanitize.TagLengthExactly | henry/sanitize.py:12-15 | the scanner finds a match of a length at a position iff the pattern, given declaratively, matches there with that length |
| Sanitize.NeutralizeCleans | henry/sanitize.py:18-20 | the output has no match of the pattern anywhere, matches across rewritten regions included |
| Sanitize.NeutralizeStable | henry/sanitize.py:18-20 | a text is unchanged iff it has no match; a second pass changes nothing |
| Sanitize.KeepsTheRest | henry/sanitize.py:18-20 | input and output agree except that the angle brackets of whole matches are escaped |
| Sanitize.NeutralizeReadsBack | henry/sanitize.py:20 | a text without ampersands can be read back from its sanitized form |
| Sanitize.CleanPrefix | henry/integrations/mcp.py:128-131 | cutting a clean text leaves it clean |
| Sanitize.CleanAppend | henry/integrations/mcp.py:131 | appending a note without a closing bracket leaves a clean text clean |
| ToolResults.ResultClean | henry/integrations/mcp.py:134-169 | no string and no string key of any sanitized tool result has a match, on every path of truncation |
| ToolSizes.CharsPrinted | henry/integrations/mcp.py:160-168 | the JSON rendering of any value is at least as long as all its strings and string keys together |
| ToolSizes.WalkSerializable | henry/integrations/mcp.py:137-161 | if a value can be rendered, so can the sanitized value, colliding keys included |
| ToolSizes.ResultBounded | henry/integrations/mcp.py:134-169 | every string of a result is short; if the tool's value can be rendered, all strings and keys of the result together are at most 50,000 characters, and the note if it is a string |
| ToolKeeps.ResultKeeps | henry/integrations/mcp.py:128-169 | an oversized string or rendering is kept up to its first 50,000 characters, with the note; a structure that cannot be rendered keeps every key and position and each string up to there; everything else is returned as sanitized |
| ToolKeeps.WalkSanitizes | henry/integrations/mcp.py:137-144 | where no two keys of a dictionary become one, every string and string key is sanitized in its place and nothing else changes |
| ToolResults.CleanResultUnchanged | henry/integrations/mcp.py:137-168 | a clean result within the limit is returned as it is, order and keys included |
| ToolResults.WholeResultUncapped | henry/integrations/mcp.py:162-166 | results of any number of parts pass unchanged if one part is not serializable |
| Paths.ConfinedExactly | henry/sandbox/docker.py:502-512 | a path is accepted iff it has no NUL, is under the same root, and walking its components ends at or below the working directory; the result is where the walk ends |
| Paths.TwoSlashesRejected | henry/sandbox/docker.py:502-512 | a path with exactly two leading slashes is refused (section 4.13 of IEEE Std 1003.1 makes its root a different one) |
| Paths.SafePathCanonical | henry/sandbox/docker.py:502-512 | an accepted path comes out with proper names only, and is a fixed point |
| Paths.RootWorkdir | henry/sandbox/docker.py:505-511 | with `/` as working directory exactly the paths with two leading slashes are accepted |
| RepoTheorems.ComponentsWalk | henry/sandbox/tools.py:275-281 | from any directory, walking the normal form of a relative path is walking the path |
| RepoTheorems.DownwardExactly | henry/sandbox/tools.py:239-241 | the two string tests accept a relative path iff it leads down along some names wherever one starts, and its normal form consists of those names |
| RepoTheorems.DestExactly | henry/sandbox/tools.py:275-281 | a destination is accepted iff it has no NUL, is relative and leads strictly down wherever one starts; the result spells the names it leads along |
| RepoTheorems.AdmitExactly | henry/sandbox/tools.py:238-269 | the checks on one archive member, in terms of its components, and what it contributes |
| RepoTheorems.ArchiveExactly | henry/sandbox/tools.py:233-272 | the archive is accepted iff every member is sound, all share one root and the files are at most 2000 with at most 64 MiB of data in all; the files come in order, and the second path check never fires |
| RepoTheorems.ClonedFilesLandInside | henry/sandbox/tools.py:90-91 | every file of an accepted archive is written to exactly workdir/dest/path, with no dot components, or refused for a NUL in its name |
| RepoArchive.SafeFiles | henry/sandbox/tools.py:233-272 | the loop with its running root, total and list computes what the recursion over members does |
| SlackChunks.Split | henry/slack/context.py:107-123 | the loop refuses a limit below one; its chunks join to the text, and each ends where the text says |
| SlackChunks.ChunksEndRight | henry/slack/context.py:116-122 | a chunk is the rest of the text if that is within `limit`; otherwise it ends just past the last newline in reach, or for want of one is exactly full |
| SlackChunks.ChunksJoin | henry/slack/context.py:113-123 | the chunks, put together, are the text |
| SlackChunks.LimitKeptExactly | henry/slack/context.py:117-121 | every chunk is at most `limit` long iff no chunk starts exactly `limit` characters before a newline |
| SlackChunks.LimitKept | henry/slack/context.py:117-121 | every chunk is at most `limit` long if the text has no newline from index `limit` on |
| SlackChunks.OneNewline | henry/slack/context.py:117-121 | with one newline in the text, every chunk is at most `limit` long iff it is not at a positive multiple of `limit` |
| SlackChunks.OverLimit | henry/slack/context.py:117-121 | a text and limit with a chunk over the limit |
| SlackChunks.SplitTheorem | henry/slack/context.py:107-123 | for every text and limit: the chunks join to the text, each ends just past the last newline in reach or is full, they are over the limit exactly where a newline stands just past it, any two neighbours are longer than the limit together, and there are at most 2 * (n / (limit + 1)) + 1 of them |
| Runner.Effects.HandleRequest | henry/orchestrator/runner.py:112-158 | for all outcomes of the callbacks, the exit and the log of side effects |
| Runner.OneRunOneAudit | henry/orchestrator/runner.py:124-158 | a request that returns wrote exactly one audit record, of the very result it replies with; cleanup ran once iff dependencies were built; success was recorded iff the snapshot refresh completed |
| Runner.ReplyAndRecordExactly | henry/orchestrator/runner.py:75-158 | if all went well the reply is the runner's output, or the text for its status, and the record has its usage, status and error; otherwise the reply is the error text and the record has the message of the first exception |
| Runner.RepliesExactly | henry/orchestrator/runner.py:124-158 | a request returns iff no callback that is reached is cancelled, cleanup returns where it runs, and the audit sink returns: no ordinary exception of config, transcript, dependencies, runner or snapshot gets out |
| ThreadLocks.Registry.GetLock | henry/orchestrator/locks.py:19-26 | a key's lock is made once and is the same object ever after |
| ThreadLocks.StepKeeps | henry/orchestrator/locks.py:28-32 | every step, cancellations included, keeps the lock table matched with the requests inside, each on the lock its registry has for its key |
| ThreadLocks.NoOverlap | henry/orchestrator/locks.py:28-32 | two requests inside at once have different threads or different registries |
| ThreadLocks.OwnRegistriesOverlap | henry/orchestrator/runner.py:106-111 | two requests of one thread without a shared registry are inside at once in some run |

## Left out

- `exec`, `write_file` and `read_file` transfer bytes; of them only the session they ask for and the path check are modelled.
- `_wait_ready` and the other Docker, HTTP, Slack, database and Jupyter calls: each is a step that returns, raises or times out.
- Second cancellations during a shielded cleanup, and exceptions from a removal that are not Docker errors.
- Containers and volumes that a failing or cancelled create call made before it failed, beyond counting the container as lost.
- `_format_cell_result` and the texts of transport errors and timeouts: a failed cell carries its error name only.
- The clock: deadlines end a trace of events, and the latency of a run is no part of its audit record.
- The audit record's run id, channel, thread, actor and action, which are copied as they come; its cost is an exact number here.
- `str()` of stream and error fields that are no strings: these fields are strings here. A tool result's tuples and other objects are leaves, as they are to the code, which does not look into them.
- Tar and gzip parsing and the download: the model starts from the list of archive members.
- The general regular-expression engine: the reserved-tag pattern and the ANSI pattern are defined by hand.
- `henry/agent`, `henry/config`, `henry/memory`, the built-in integrations, MCP configuration and the wiring: glue whose properties are each seen in one body.
- KernelTheorems.ForeignTrafficInert: one-way for a failed cell, since two loops that end at different events may still agree on a failure.
- The order in which `asyncio.Lock` wakes its waiters, and fairness: any waiter may get a free lock.

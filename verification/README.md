# What the shell and its tools promise, proved

This project models the parts of GPT-VoiceCoding whose correctness does not show from reading
one body, and proves what they are for:

- the **engine supervisor** (`EngineSupervisor`, `RestartPolicy`): an actor whose stretches
  between `await`s interleave with its callers, its processes and its deadlines. The class
  `Supervisor` has the actor's fields and one method per stretch; the modules `SupervisorRuns`,
  `SupervisorLaws`, `SupervisorRetries`, `SupervisorClocks` and `SupervisorUpkeep` prove what
  every run of it keeps;
- the **words of a child** on their way to the supervisor (`InheritedStderr`, `ProcessLauncher`,
  `OneShot`, `StderrRing`): a chain of queues with an exit latch beside it;
- the **line editor for TOML** and its reader (`MinimalTOML`), the edits the shell composes from
  them (`ShellConfigurationFile`), and the credential file beside it (`TelegramCredentials`);
- the **WebSocket** frames and message reassembly of `websocket.py` (RFC 6455);
- the **update worker** (`CodexUpdate`): one check at a time, no request lost;
- four **text algorithms**: codex's cut to a token budget, the login shell's sentinels, the hook
  merge, and the dependency lock.

Loops and objects that change in place are methods and classes, each proved equal to a function
or predicate of its inputs or old state; the lemmas are about those functions and about whole
runs of them. What such a function means is said a second time, without it: by positions in a
list or a document, by the pieces a text is made of, by the numbers of a standard, or by a short
account of the events of a run. A text is a sequence of Unicode scalar values, a byte a `bv8` in
the frames and a number elsewhere, a time a whole number of milliseconds, a process or task an
identity.

## What the code does that its words do not say

Each of these is kept in the model as the code has it, with the condition under which the promise
is met - the exact one, but for mixed widths in the last - and, where it is not plain, an input
without it.

- A Retry pressed while a launch or a process is under way is remembered until a process is next
  awaited to its exit. If the launch throws instead, every later Retry does nothing, and the next
  `start` stops the process it launches as soon as it arrives
  (`SupervisorRetries.RequestedExactlyWhenRemembered`, `RetryAfterFailedLaunch`,
  `DeafIsReachable`, `DeafUntilStarted`, `StartAfterDeafRetry`).
- The first restart delay is not capped, only the doubled ones are
  (`RestartPolicy.DelaysClimbToCap`).
- The TOML reader does not know which lines are statements, the editor does; a table that is only
  text inside a multi-line string is real to the reader. It also takes fewer characters for white
  space than the editor. `TomlSetting.ReadBackExactly` is the exact condition under which what is
  set is read back, `TomlLimits.ReaderMisled` a document without it.
- Setting a value twice leaves the second one only where no quote or bracket is open at the place
  of the edit (`TomlRewriting.LastWriteWins`, `TomlLimits.UnsettledIsReal`); removing a key once is
  as good as twice exactly when the value taken out ends on its own line
  (`TomlLimits.RemovedForGoodExactlyWhenClosed`, `OpenTargetIsReal`).
- A `\u` escape may hold a sign where the refusal asks for hexadecimal digits only:
  `TomlEscapes.ScalarReadsExactly` says which escapes are taken, `StrictExactlyWithoutSign` when
  that is what was asked for, `SignIsRead` shows one that is not.
- A watch that throws while the update worker handles a result is not set up again by later
  results that name the same paths (`CodexUpdateRuns.WatchesWhatTheCheckNamed`,
  `LostWatchIsReachable`, `LostWatchStaysLost`).
- Installing hooks twice is installing them once exactly when everything installed is recognised
  as the probe's own (`HookMerge.InstallTwice`).
- codex's descent can pass over a budget that would have fitted. For characters of one width it
  never does exactly when that width is one or two bytes
  (`CodexTruncateBest.BestExactlyForNarrow`, with `ThreeWideIsNotBest` and `FourWideIsNotBest`);
  for mixed widths it does not where every even offset from either end, short of the middle, is
  between two characters (`EvenResultIsBest`); the exact condition for mixed widths is open.

## Model

| member | source | states |
|---|---|---|
| RestartPolicy.DelaysClimbToCap | shell/Sources/ShellCore/RestartPolicy.swift:71-74 | the delays never shrink and never pass the cap, exactly when the first is neither negative nor above the cap |
| RestartPolicy.DelaysDouble | shell/Sources/ShellCore/RestartPolicy.swift:71-74 | the first delay is the policy's, and each later one twice the one before it, or the cap |
| RestartPolicy.DefaultLadder | shell/Sources/ShellCore/RestartPolicy.swift:49-93 | under the default policy a run of a minute and no shorter one is no failure; fast failures wait 1, 2, 4 and 8 seconds, and the fifth gives up; the delay after a fifth would be 16 seconds, after a sixth the cap of 30 |
| EngineSupervisor.Supervisor.constructor | shell/Sources/ShellCore/EngineSupervisor.swift:124-154 | the actor starts with nothing running, asked or counted |
| EngineSupervisor.Supervisor.Start | shell/Sources/ShellCore/EngineSupervisor.swift:186-190 | a new loop only if none runs and shutting down has not begun |
| EngineSupervisor.Supervisor.Retry | shell/Sources/ShellCore/EngineSupervisor.swift:202-225 | forgives and clears, then starts, records a replacement, or asks the child to stop under a deadline |
| EngineSupervisor.Supervisor.BeginShutDown | shell/Sources/ShellCore/EngineSupervisor.swift:245-255 | sets the flag, drops a pending replacement with its deadline, asks the child to stop |
| EngineSupervisor.Supervisor.EndShutDown | shell/Sources/ShellCore/EngineSupervisor.swift:249-259 | after the loop has ended the health is shut down |
| EngineSupervisor.Supervisor.CancelReplacement | shell/Sources/ShellCore/EngineSupervisor.swift:374-378 | the request and its deadline are dropped together |
| EngineSupervisor.Supervisor.EnterLoop | shell/Sources/ShellCore/EngineSupervisor.swift:275-295 | the loop's condition, the command's refusal, and the state a launch begins in |
| EngineSupervisor.Supervisor.LaunchReturned | shell/Sources/ShellCore/EngineSupervisor.swift:303-320 | the process is adopted, asked to stop at once if it is no longer wanted, and waited for with the moment its launch began and the launcher's own work; what those are good for is `SupervisorClocks.ExitIsJudgedOnItsRun` |
| EngineSupervisor.Supervisor.LaunchThrew | shell/Sources/ShellCore/EngineSupervisor.swift:296-302 | a launch that throws ends the loop with its refusal and keeps a recorded request |
| EngineSupervisor.Supervisor.ExitReturned | shell/Sources/ShellCore/EngineSupervisor.swift:323-351 | shutting down, replacement and verdict, in that order; run length without the launcher's overhead, never negative |
| EngineSupervisor.Supervisor.EndLoop | shell/Sources/ShellCore/EngineSupervisor.swift:354-358 | the flags are cleared before the ending is published, and shutting down overrides it |
| SupervisorRuns.StepKeeps | shell/Sources/ShellCore/EngineSupervisor.swift:186-386 | every step any caller, process, deadline or the loop can take keeps the invariant on loops, processes, deadlines, calls of `shutDown` and counts |
| SupervisorRuns.RunKeeps | shell/Sources/ShellCore/EngineSupervisor.swift:186-386 | so every run keeps it |
| SupervisorLaws.OneLoopOneChild | shell/Sources/ShellCore/EngineSupervisor.swift:186-225 | at most one loop; at most one launched process not yet awaited, and it is the child; the ring holds only the latest process's words |
| SupervisorLaws.LaunchesFollowExits | shell/Sources/ShellCore/EngineSupervisor.swift:273-352 | a launch begins only when every earlier process has been awaited to its exit, and never once shutting down has begun |
| SupervisorLaws.NothingNewAfterShutDown | shell/Sources/ShellCore/EngineSupervisor.swift:245-260 | in every run after `shutDown` has set its flag, at most the launch already in flight still delivers a process |
| SupervisorLaws.LateChildIsAsked | shell/Sources/ShellCore/EngineSupervisor.swift:304-326 | a process delivered after it stopped being wanted, and only such a one, is asked to stop before the loop waits for it, with a deadline behind the asking |
| SupervisorLaws.ShutDownLeavesNothing | shell/Sources/ShellCore/EngineSupervisor.swift:245-260 | once any call of `shutDown` has returned there is no loop and every process has exited and been awaited |
| SupervisorLaws.ShutDownIsFinal | shell/Sources/ShellCore/EngineSupervisor.swift:186-260 | and so it stays, health included, whatever is called later |
| SupervisorLaws.ShutDownEndsTheLoop | shell/Sources/ShellCore/EngineSupervisor.swift:275-358 | while shutting down each stretch of the loop brings it nearer its end, and its end shows as shut down and lets every call of `shutDown` return |
| SupervisorLaws.OnlyTheAskedAreForced | shell/Sources/ShellCore/EngineSupervisor.swift:365-386 | `forceStop` reaches only the child that was asked to stop and has not exited, through its own deadline; never its successor |
| SupervisorLaws.AskedExactlyWhenUnwanted | shell/Sources/ShellCore/EngineSupervisor.swift:202-325 | the child has been asked to stop exactly when the shell is going away or a replacement was requested |
| SupervisorLaws.TheUncooperativeAreForced | shell/Sources/ShellCore/EngineSupervisor.swift:236-239 | a child that was asked and does not exit was forced, or a running deadline will force it |
| SupervisorLaws.ReplacementGoesStraightOn | shell/Sources/ShellCore/EngineSupervisor.swift:326-330 | an exit consumed as a replacement goes straight to the next launch with no backoff and no failure counted, request and deadline gone |
| SupervisorLaws.RetryDoesWhatItSays | shell/Sources/ShellCore/EngineSupervisor.swift:192-225 | wherever it is heard: count and ring cleared; then a new loop, or the child asked to stop under a deadline, or the request kept for a child on its way, or in a backoff nothing more |
| SupervisorLaws.HealthIsHonest | shell/Sources/ShellCore/EngineSupervisor.swift:318-358 | running shows the process waited for, restarting the delay slept, and neither is ever shown without a loop |
| SupervisorLaws.FailuresClimbTheLadder | shell/Sources/ShellCore/EngineSupervisor.swift:342-351 | in every state, stopped or not: the count stays below the ceiling, the backoffs since the last reset are the policy's ladder up to it, and launches are bounded by the ceiling |
| SupervisorLaws.FiveLaunchesThenStop | shell/Sources/ShellCore/EngineSupervisor.swift:332-351 | by default and in every state: a count of 0 to 4, backoffs that are a prefix of 1, 2, 4, 8 seconds, at most five launches between two resets |
| SupervisorClocks.LaunchParks | shell/Sources/ShellCore/EngineSupervisor.swift:291-320 | a launch that returns leaves its loop beside the new process, with the moment that launch began and the overhead it came back with |
| SupervisorClocks.ExitIsJudgedOnItsRun | shell/Sources/ShellCore/EngineSupervisor.swift:291-351 | in every run an exit nobody asked for is judged on the time since its launch began - as the loop began, after a backoff, or right after a replacement - less the overhead of that launch and never below zero; beside that time only the code with the socket and the failures before it count |
| SupervisorUpkeep.RingKeepsTheWords | shell/Sources/ShellCore/EngineSupervisor.swift:286-362 | the ring gains each word as it is delivered and is emptied only where a launch begins or a Retry is heard |
| SupervisorUpkeep.NoDeadlineIsForgotten | shell/Sources/ShellCore/EngineSupervisor.swift:202-378 | in every state a stopping deadline runs only while the replacement, the loop beside that process, or an unfinished `shutDown` holds it; without a child and with every `shutDown` returned none is left |
| SupervisorUpkeep.ExitIsOnRecord | shell/Sources/ShellCore/EngineSupervisor.swift:286-325 | in every state the child is on record as gone during a backoff, and not during a launch or beside a process |
| SupervisorUpkeep.StartBeginsOneLoop | shell/Sources/ShellCore/EngineSupervisor.swift:186-190 | `start` begins a loop exactly where there is none and `shutDown` was never called |
| SupervisorUpkeep.HeadLaunchesOrEnds | shell/Sources/ShellCore/EngineSupervisor.swift:275-302 | a loop that begins and a backoff that ends launch at once with that moment noted, or end, shut down or showing the command's refusal |
| SupervisorRetries.RequestedExactlyWhenRemembered | shell/Sources/ShellCore/EngineSupervisor.swift:202-225 | in every run a request to replace is held if and only if `shutDown` was never called and some Retry was pressed while a launch or a process was under way with no process awaited to its exit since |
| SupervisorRetries.RetryAfterFailedLaunch | shell/Sources/ShellCore/EngineSupervisor.swift:203-221 | after a run whose last launch throws Retry starts a loop exactly when no such press is remembered, from that launch or an earlier one that threw; else it changes nothing |
| SupervisorRetries.DeafUntilStarted | shell/Sources/ShellCore/EngineSupervisor.swift:203 | no number of retries ends that state |
| SupervisorRetries.DeafIsReachable | shell/Sources/ShellCore/EngineSupervisor.swift:221 | start, launch, Retry and a launch that throws lead to it |
| SupervisorRetries.StartAfterDeafRetry | shell/Sources/ShellCore/EngineSupervisor.swift:314-315 | the next start asks the process it launches to stop at once |
| OneShot.OneShot.Resolve | shell/Sources/ShellCore/OneShot.swift:34-43 | the first call stores and resumes every waiter; later calls resume nobody |
| OneShot.OneShot.Value | shell/Sources/ShellCore/OneShot.swift:47-56 | a waiter is resumed at once or suspended |
| OneShot.EverybodyOnceWithTheFirst | shell/Sources/ShellCore/OneShot.swift:30-56 | in every history each waiter, early or late, is resumed exactly once, in order, with the first resolved value; before that all are suspended and none resumed |
| StderrRing.StderrRing.Ingest | shell/Sources/ShellCore/StderrRing.swift:29-40 | the ring after one chunk: the bytes broken at newlines, one carriage return stripped, trimmed to the capacity |
| StderrRing.StderrRing.Lines | shell/Sources/ShellCore/StderrRing.swift:25-27 | the complete lines and a non-empty partial one |
| StderrRing.BreakJoin | shell/Sources/ShellCore/StderrRing.swift:30-36 | breaking a stream is breaking its first part and going on from its partial line |
| StderrLines.BreakStream | shell/Sources/ShellCore/StderrRing.swift:30-36 | lines of bytes without a newline, each ended by a newline that a carriage return may go before, are broken into exactly those lines, and what follows the last newline is the partial one |
| StderrLines.EveryStreamIsLines | shell/Sources/ShellCore/StderrRing.swift:29-36 | every stream is such lines and a rest without a newline |
| StderrLines.RingShows | shell/Sources/ShellCore/StderrRing.swift:25-40 | so whatever lines a stream is made of and however it is cut into chunks, the ring shows the last fifty of exactly those lines, a rest that is not empty counting as one |
| StderrPipeline.InheritedStderr.HandleReadable | shell/Sources/ShellCore/InheritedStderr.swift:58-73 | a chunk is yielded, the end finishes the stream and ends the watch, and a late turn does nothing |
| StderrPipeline.InheritedStderr.DeliveryTakes | shell/Sources/ShellCore/InheritedStderr.swift:49-53 | the delivery loop takes the oldest chunk, or ends |
| StderrPipeline.InheritedStderr.Abandon | shell/Sources/ShellCore/InheritedStderr.swift:97-105 | the watch is down and the stream finished |
| StderrPipeline.AbandonEndsDelivery | shell/Sources/ShellCore/InheritedStderr.swift:97-105 | after it the delivery task's next turn is its last, and a late turn of the handler does nothing |
| StderrPipeline.NothingLostOrReordered | shell/Sources/ShellCore/InheritedStderr.swift:46-74 | at every moment delivered, in hand, second stream, in hand, first stream and pipe together are what was written, in order |
| StderrPipeline.ReturnsWithEverything | shell/Sources/ShellCore/ProcessLauncher.swift:155-218 | `waitForExit` returns the code the process died with, with the latch set, no writer left and every byte delivered |
| StderrPipeline.NothingAfterTheExit | shell/Sources/ShellCore/InheritedStderr.swift:19-21 | after it returns nothing of the run happens any more |
| StderrPipeline.ExitComesNearer | shell/Sources/ShellCore/ProcessLauncher.swift:211-218 | once the process is dead and the last writer closed, every step brings the return nearer, but for a late turn of the handler, which changes nothing |
| StderrPipeline.ExitIsNeverStuck | shell/Sources/ShellCore/InheritedStderr.swift:76-86 | and until it has returned there is such a step |
| StderrPipeline.RingShowsTheLastLines | shell/Sources/ShellCore/ProcessLauncher.swift:211-218 | so the ring fed by `waitForExit` ends with the last fifty of the lines the child wrote |
| Text.JoinSplit | shell/Sources/ShellCore/MinimalTOML.swift:22-50 | cutting a text into lines and joining them loses nothing |
| Text.SplitJoin | shell/Sources/ShellCore/MinimalTOML.swift:22-50 | joining lines and cutting the text gives the same lines |
| TomlString.UnescapeEscape | shell/Sources/ShellCore/MinimalTOML.swift:216-250 | every string, once escaped and closed, reads back as itself, whatever follows its quote |
| TomlString.ReadQuoted | shell/Sources/ShellCore/MinimalTOML.swift:204-266 | the loop of `unquote`: literal and basic strings, each escape, each refusal |
| TomlReading.StringReadsExactly | shell/Sources/ShellCore/MinimalTOML.swift:204-252 | a value is read as a string if and only if it begins with that string between apostrophes, with no apostrophe in it, or between quotes piece for piece: characters as they are, the seven short escapes by their code points, `\u` with four and `\U` with eight digits by the scalar they name |
| TomlReading.RefusedExactly | shell/Sources/ShellCore/MinimalTOML.swift:204-266 | it is refused as not quoted, not closed, an unreadable escape or a bad scalar if and only if it has no quote in front, or its pieces run into that |
| TomlEscapes.HexDigitsIsCode | shell/Sources/ShellCore/MinimalTOML.swift:254-266 | the running value of the digits is the number they stand for at their places, and there is none where one is no digit |
| TomlEscapes.ScalarReadsExactly | shell/Sources/ShellCore/MinimalTOML.swift:254-266 | an escape is taken if and only if its digits, after a plus or nothing, are hexadecimal and name a scalar, or are zeros after a minus; and it is the scalar they name |
| TomlEscapes.StrictExactlyWithoutSign | shell/Sources/ShellCore/MinimalTOML.swift:258-263 | for every continuation of a first character the reader takes just what its refusal asks for, if and only if that character is no sign |
| TomlEscapes.SignIsRead | shell/Sources/ShellCore/MinimalTOML.swift:259 | a plus and three digits are read where four digits were asked for |
| TomlEscapes.SignedEscapeIsRead | shell/Sources/ShellCore/MinimalTOML.swift:232-240 | so a quoted value with such an escape is a string to the reader |
| TomlScan.StatementStarts | shell/Sources/ShellCore/MinimalTOML.swift:104-148 | exactly the lines before which no quote or bracket is open |
| TomlScan.FindComment | shell/Sources/ShellCore/MinimalTOML.swift:157-179 | where the comment of a line starts, outside quotes |
| TomlScan.ScanRendered | shell/Sources/ShellCore/MinimalTOML.swift:104-148 | a printed value leaves the scanner as it found it, unless another quote is glued to it |
| TomlScan.CommentPastRendered | shell/Sources/ShellCore/MinimalTOML.swift:157-179 | a `#` inside a printed value never starts a comment, and one after it still does |
| TomlTokens.TokensPassed | shell/Sources/ShellCore/MinimalTOML.swift:104-148 | past any tokens - characters, brackets, braces, closed basic and literal strings - the scanner has counted one up for each bracket or brace that opens and one down for each that closes, and nothing else |
| TomlTokens.BalancedIsClean | shell/Sources/ShellCore/MinimalTOML.swift:104-148 | a line of tokens, with a comment or without, leaves nothing open if and only if it closes as many brackets and braces as it opens |
| TomlTokens.UnclosedStaysOpen | shell/Sources/ShellCore/MinimalTOML.swift:113-131 | a string that its line does not close is open below it |
| TomlTokens.LongOpens | shell/Sources/ShellCore/MinimalTOML.swift:131-138 | three quotes open a string over several lines |
| TomlTokens.LongBodyPassed | shell/Sources/ShellCore/MinimalTOML.swift:116-130 | inside one no bracket, comment or shorter run of quotes counts, and in a basic one nothing that a backslash hides |
| TomlTokens.LongCloses | shell/Sources/ShellCore/MinimalTOML.swift:121-129 | three quotes or more close it |
| TomlTokens.CommentExactly | shell/Sources/ShellCore/MinimalTOML.swift:157-179 | a comment begins at `i` if and only if there is a `#` and the text before it is tokens, so that no string is open |
| TomlLines.WithValue | shell/Sources/ShellCore/MinimalTOML.swift:39-44 | the cut around a line's value: white space and comment stay |
| TomlPlaces.ReplacesTheValue | shell/Sources/ShellCore/MinimalTOML.swift:39-45 | a replacement changes the value alone: white space after the `=`, white space before the comment, and the comment stay, whatever the value was |
| TomlPlaces.FillsTheGap | shell/Sources/ShellCore/MinimalTOML.swift:42-44 | where there was no value it goes right after the `=` |
| TomlLines.HeaderReadsBack | shell/Sources/ShellCore/MinimalTOML.swift:150-155 | a printed header is read as that table |
| TomlLines.AssignmentReadsBack | shell/Sources/ShellCore/MinimalTOML.swift:47 | a printed assignment is read as that key and value |
| TomlLines.ViewAssigns | shell/Sources/ShellCore/MinimalTOML.swift:35-38 | editor and reader agree on which lines assign a key |
| TomlLines.ReplaceKeepsAround | shell/Sources/ShellCore/MinimalTOML.swift:39-45 | a second replacement meets the same line but for the value |
| TomlLines.WhiteLeadRefuses | shell/Sources/ShellCore/MinimalTOML.swift:42-198 | with a line separator between `=` and value the reader refuses what the editor wrote |
| MinimalToml.ReadString | shell/Sources/ShellCore/MinimalTOML.swift:182-202 | the reader's loop is the walk over the views of the lines |
| TomlLookup.HeaderExactly | shell/Sources/ShellCore/MinimalTOML.swift:188-193 | the reader sees a header if and only if the line is blanks, a bracket, a name up to the first closing one, and anything; the name is trimmed |
| TomlLookup.AssignmentExactly | shell/Sources/ShellCore/MinimalTOML.swift:194-198 | it sees an assignment if and only if the line has a `=`, and neither a `#` nor a bracket in front; key and value are the trimmed text before and after the first one |
| TomlLookup.ReadsExactly | shell/Sources/ShellCore/MinimalTOML.swift:182-202 | a lookup reads a string if and only if the first line that assigns the key, with the last header above it naming the table, holds that string |
| TomlLookup.RefusesExactly | shell/Sources/ShellCore/MinimalTOML.swift:182-202 | it refuses exactly what is refused there |
| TomlLookup.AbsentExactly | shell/Sources/ShellCore/MinimalTOML.swift:182-202 | it finds nothing if and only if there is no such line |
| TomlLookup.LiteralIsRead | shell/Sources/ShellCore/MinimalTOML.swift:207-212 | so on that line a string between apostrophes is read as it is written |
| MinimalToml.Set | shell/Sources/ShellCore/MinimalTOML.swift:18-65 | `setting`: replace, insert under the header, or append a table; refusals of other values |
| MinimalToml.Locate | shell/Sources/ShellCore/MinimalTOML.swift:23-46 | which of the three it is, and where |
| MinimalToml.EditShape | shell/Sources/ShellCore/MinimalTOML.swift:26-38 | the line named is a statement of the kind the edit takes it for |
| MinimalToml.MarkAt | shell/Sources/ShellCore/MinimalTOML.swift:26-38 | a line is a header or an assignment to the editor exactly where nothing is open above it |
| TomlPlaces.EditExactly | shell/Sources/ShellCore/MinimalTOML.swift:23-54 | the edit replaces the first assignment of the key in the first section of the table, or goes under that section's header where there is none, or into a new table where there is no such header: if and only if |
| TomlSetting.ReadBack | shell/Sources/ShellCore/MinimalTOML.swift:18-202 | where the reader meets the edit, every string set is read back exactly, in all three cases |
| TomlSetting.ReadBackExactly | shell/Sources/ShellCore/MinimalTOML.swift:18-202 | every string set is read back if and only if the reader, run over the lines above the edit, stands in the table having found nothing, and only blanks lead the value |
| TomlSetting.OthersUnchanged | shell/Sources/ShellCore/MinimalTOML.swift:18-54 | every other lookup answers as before |
| TomlSetting.SetSplit | shell/Sources/ShellCore/MinimalTOML.swift:45-53 | the lines of the written text are the old lines with one replaced, one inserted, or a table appended |
| TomlRewriting.LastWriteWins | shell/Sources/ShellCore/MinimalTOML.swift:18-54 | setting one value and then another is setting the other alone, if and only if nothing is open where the key is written |
| TomlTidy.TidyInTable | shell/Sources/ShellCore/MinimalTOML.swift:102-202 | in a tidy document reader and editor meet: no line inside an open value looks like a header or like one of the edited keys, headers and edited values end on their line, and only blanks lead those values |
| TomlTidy.TidyKept | shell/Sources/ShellCore/MinimalTOML.swift:18-54 | setting keeps a tidy document tidy and every other lookup as it was |
| TomlTidy.TidyEdit | shell/Sources/ShellCore/MinimalTOML.swift:18-202 | in a tidy document every string set is read back and the last write wins |
| TomlRemoving.RemoveTable | shell/Sources/ShellCore/MinimalTOML.swift:67-80 | the loop of `removing(table:)` |
| TomlPlaces.KeptExactly | shell/Sources/ShellCore/MinimalTOML.swift:67-80 | the lines kept are, in order, exactly those not under a header of the family, and of the others each statement line that is blank or a comment and an empty last line |
| TomlRemoving.RemoveTableTwice | shell/Sources/ShellCore/MinimalTOML.swift:67-80 | removing a table again changes nothing, in any document |
| TomlRemoving.RemovedTableReads | shell/Sources/ShellCore/MinimalTOML.swift:67-80 | in a tidy document nothing of the table or its sub-tables is read after the removal, and every other lookup answers as before |
| TomlRemoving.RemoveKey | shell/Sources/ShellCore/MinimalTOML.swift:82-100 | the loop of `removing(key:)`, which leaves a comment in place |
| TomlPlaces.LeftExactly | shell/Sources/ShellCore/MinimalTOML.swift:82-100 | every line stays as it is but the statements that assign the key under that table, of which exactly the comment stays |
| TomlRemoving.RemovedKeyReads | shell/Sources/ShellCore/MinimalTOML.swift:82-100 | in a tidy document an edited key is not read after its removal, and every other lookup answers as before |
| TomlRemoving.RemoveKeyTwice | shell/Sources/ShellCore/MinimalTOML.swift:82-100 | removing a key again changes nothing where each value taken out ended on its own line |
| TomlLimits.ReaderMisled | shell/Sources/ShellCore/MinimalTOML.swift:182-202 | a family of documents in which what was just set is not what is read |
| TomlLimits.RemovedForGoodExactlyWhenClosed | shell/Sources/ShellCore/MinimalTOML.swift:82-100 | one removal of a key is as good as two, whatever follows, if and only if the value taken out ends on its own line |
| TomlLimits.UnsettledIsReal | shell/Sources/ShellCore/MinimalTOML.swift:52-53 | a line that opens an array is a document in which a second write of any table leaves the first one standing |
| TomlLimits.OpenTargetIsReal | shell/Sources/ShellCore/MinimalTOML.swift:82-100 | such a line under its header is one whose removal is not for good |
| ShellConfigurationFile.BindTelegram | shell/Sources/ShellCore/ShellConfigurationFile.swift:61-82 | the four settings in order; an existing token variable wins over the default; an unconfirmed chat refuses |
| ShellConfigurationFile.UnbindTelegram | shell/Sources/ShellCore/ShellConfigurationFile.swift:105-111 | two tables removed, the null adapter set |
| ShellConfigurationFile.SaveAgentModel | shell/Sources/ShellCore/ShellConfigurationFile.swift:91-101 | model set, effort set or removed |
| ShellConfigurationFile.BindingReadsBack | shell/Sources/ShellCore/ShellConfigurationFile.swift:67-82 | in a tidy configuration all four settings of a binding read back together, every other lookup is unchanged, and it stays tidy |
| ShellConfigurationFile.UnbindingReads | shell/Sources/ShellCore/ShellConfigurationFile.swift:105-111 | what is read from a tidy configuration after an unbinding, for every table and key |
| ShellConfigurationFile.BindThenUnbind | shell/Sources/ShellCore/ShellConfigurationFile.swift:61-111 | after both, in a tidy configuration, no token variable is read and the null adapter is named |
| ShellConfigurationFile.AgentModelReadsBack | shell/Sources/ShellCore/ShellConfigurationFile.swift:91-101 | in a tidy configuration the model reads back with its effort, or with none, and nothing else changed |
| ShellConfigurationFile.File.Replace | shell/Sources/ShellCore/ShellConfigurationFile.swift:120-139 | for any step after the write: the file holds the new text exactly when the caller is told so, unless restoring fails too |
| TelegramCredentials.ReadEnvironment | shell/Sources/ShellCore/TelegramCredentials.swift:238-259 | the assignments, or the first problem with its line |
| TelegramEnvironment.LineSeen | shell/Sources/ShellCore/TelegramCredentials.swift:243-257 | a line is passed over if and only if it is blank or a comment after blanks, assigns if and only if it is a variable name, a `=` and the value, and is no assignment without a `=` |
| TelegramEnvironment.EnvironmentExactly | shell/Sources/ShellCore/TelegramCredentials.swift:238-259 | a file is read if and only if each line is passed over or assigns a name that no line before it does; what is read is each name with its value |
| TelegramEnvironment.ProblemExactly | shell/Sources/ShellCore/TelegramCredentials.swift:246-255 | it is refused with a problem if and only if that is what is wrong with its first line that is neither, counted from one |
| TelegramCredentials.Replacing | shell/Sources/ShellCore/TelegramCredentials.swift:261-279 | the rewritten text: the assigning lines replaced in place, or one assignment appended |
| TelegramCredentials.TakenExactlyAssignments | shell/Sources/ShellCore/TelegramCredentials.swift:245-271 | the rewriting takes exactly the lines the reader reads as assignments of the variable |
| TelegramCredentials.RewritingReadsBack | shell/Sources/ShellCore/TelegramCredentials.swift:238-279 | reading a rewritten file gives the old assignments with just that one set, and a file with a problem keeps exactly that problem |
| TelegramCredentials.OtherLinesSurvive | shell/Sources/ShellCore/TelegramCredentials.swift:261-279 | every other line, comments included, survives byte for byte in order |
| TelegramSaving.Credentials.Load | shell/Sources/ShellCore/TelegramCredentials.swift:103-149 | the state and environment for each configuration and file |
| TelegramEnvironment.ReadyExactly | shell/Sources/ShellCore/TelegramCredentials.swift:103-149 | Telegram is ready if and only if the configuration names a variable and a private file of UTF-8 that can be read gives it a value that is not blank; what is loaded is that file |
| TelegramEnvironment.UnsafeExactly | shell/Sources/ShellCore/TelegramCredentials.swift:118-122 | a file that others may read is refused whatever it holds, and only such a one; nothing is loaded from a file that is not private |
| TelegramSaving.Credentials.Save | shell/Sources/ShellCore/TelegramCredentials.swift:156-209 | a save works if and only if the token is one line and not blank, the variable is named, the file could be read and the new one written; then the file is the rewritten one and loads as what is returned; a failed save changes nothing, and says which of these it was |
| TelegramSaving.SavedLoads | shell/Sources/ShellCore/TelegramCredentials.swift:103-209 | what was just saved is what is loaded next: ready, the old variables and this one |
| TelegramBinding.Installation.Bind | shell/Sources/ShellCore/ShellConfigurationFile.swift:61-139 | exactly when binding succeeds; then both files are new and the credentials load as ready; else both are as before, unless restoring fails, and never is a token saved without the configuration that names it |
| TelegramBinding.Installation.Unbind | shell/Sources/ShellCore/ShellConfigurationFile.swift:105-139 | exactly when unbinding succeeds; then the channel and the credential file are gone together; else both are as before, unless restoring fails |
| TelegramBinding.BoundThenSaved | shell/Sources/ShellCore/ShellConfigurationFile.swift:67-88 | in a tidy configuration a binding names, to the credential reader, the variable named before or the default one, so the token saved with it is the one loaded |
| TelegramBinding.UnboundLoadsNothing | shell/Sources/ShellCore/ShellConfigurationFile.swift:105-111 | after an unbinding of a tidy configuration the credential reader finds Telegram not configured |
| WebSocket.ClientFrame | src/gpt_voicecoding/websocket.py:144-157 | the header, length, mask and masked payload of one frame; an error only past eight bytes of length |
| WireLayout.ClientLayout | src/gpt_voicecoding/websocket.py:144-157 | in the numbers of RFC 6455, section 5.2: the first byte 128 and the opcode; 128 and the length below 126, or 254 and two bytes, or 255 and eight, the most significant first; then the mask, and each byte of the payload under its byte of the mask |
| WireLayout.PrefixLayout | src/gpt_voicecoding/websocket.py:179-197 | opcode, final, reserved, masked and length are read from the numbers of the two bytes, with two bytes owed for 126 and eight for 127 |
| WireLayout.ExtendedLayout | src/gpt_voicecoding/websocket.py:200-202 | two or eight bytes are a length, the most significant first |
| WebSocket.UnmaskTwice | src/gpt_voicecoding/websocket.py:205-207 | the mask is its own inverse |
| WebSocket.UnpackPack | src/gpt_voicecoding/websocket.py:200-202 | a length packed in network order is read back |
| WebSocket.HeaderReadsBack | src/gpt_voicecoding/websocket.py:179-202 | prefix and extended length of a client frame come back, and no byte after them is touched |
| WebSocket.FrameReadsBack | src/gpt_voicecoding/websocket.py:144-207 | a client frame, whatever follows, is read back whole: final, masked, its opcode's four bits, its payload |
| WebSocket.OpcodeSurvives | src/gpt_voicecoding/websocket.py:148-191 | the opcode is recovered exactly when it has four bits, and then nothing reserved is set |
| WebSocket.FormIsShortest | src/gpt_voicecoding/websocket.py:149-156 | no form shorter than the one written can say the length |
| WebSocket.StreamReadsBack | src/gpt_voicecoding/websocket.py:144-207 | any list of client frames is read back as exactly that list, with no byte left over |
| WebSocket.CutFrameIsShort | src/gpt_voicecoding/websocket.py:160-197 | a frame cut anywhere short of its end is never taken for a frame |
| Reassembly.Reassembly.Take | src/gpt_voicecoding/websocket.py:243-257 | one frame's effect on the gathering and its answer |
| WireLayout.OpcodesMean | src/gpt_voicecoding/websocket.py:243-257 | opcode 8 closes, 9 is answered with a frame whose first byte is 138, 10 with nothing; 1 and 2 begin a message, 0 goes on with one, within the limit; any other frame is refused and gathers nothing |
| Reassembly.RefusedExactlyOutside | src/gpt_voicecoding/websocket.py:226-257 | nothing is refused if and only if, pings and pongs aside, one data frame and then continuations came, within the limit together; then their payloads are what is gathered |
| Reassembly.AnswersInTheGrammar | src/gpt_voicecoding/websocket.py:244-257 | each ping is answered with one pong of its payload, a final frame with everything carried so far, anything else with nothing |
| Reassembly.MessageArrivesWhole | src/gpt_voicecoding/websocket.py:226-257 | a message cut into frames with pings and pongs between arrives whole at its final frame and not before; past the limit it is refused |
| Reassembly.PongReadsBack | src/gpt_voicecoding/websocket.py:246-247 | the pong is a frame that reads back with the ping's payload |
| CodexUpdate.CodexUpdate.CheckForUpdate | shell/Sources/ShellCore/CodexUpdate.swift:38-42 | a request is recorded unless stopped, and a worker made if there is none |
| CodexUpdate.CodexUpdate.HandleReturn | shell/Sources/ShellCore/CodexUpdate.swift:46-68 | one turn of the worker after a check |
| CodexUpdate.CodexUpdate.TestLoop | shell/Sources/ShellCore/CodexUpdate.swift:44-68 | the next check, or the end of the worker |
| CodexUpdate.CodexUpdate.FileEvent | shell/Sources/ShellCore/CodexUpdate.swift:83-92 | the stream is set up again and a check asked for, either way |
| CodexUpdate.CodexUpdate.BeginStop | shell/Sources/ShellCore/CodexUpdate.swift:74-78 | stopped, nothing pending, nothing watched |
| CodexUpdateRuns.StepKeeps | shell/Sources/ShellCore/CodexUpdate.swift:38-98 | every step keeps the invariant on worker, requests, calls of `stop`, reports and watch |
| CodexUpdateRuns.ChecksNeverOverlap | shell/Sources/ShellCore/CodexUpdate.swift:38-70 | at most one check is in flight, and a check starts only where no other is |
| CodexUpdateRuns.NothingAfterStop | shell/Sources/ShellCore/CodexUpdate.swift:72-81 | after `stop`, in any run, no check starts, nothing is reported, nothing is watched |
| CodexUpdateRuns.StopWaitsForTheCheck | shell/Sources/ShellCore/CodexUpdate.swift:79-80 | `stop` returns with no worker left |
| CodexUpdateRuns.NoRequestIsLost | shell/Sources/ShellCore/CodexUpdate.swift:38-69 | a request no check has started after is pending with a live worker, whose very next turn starts one unless `stop` comes first |
| CodexUpdateRuns.IdleMeansServed | shell/Sources/ShellCore/CodexUpdate.swift:38-69 | when the worker is gone, every request has been followed by a check that started after it |
| CodexUpdateRuns.ReportsAreNews | shell/Sources/ShellCore/CodexUpdate.swift:94-98 | each report differs from the one before |
| CodexUpdateTold.TellsTheRun | shell/Sources/ShellCore/CodexUpdate.swift:38-98 | in every run the last report is what the events so far say is to be told - a failed result, an update that takes it back, a reply that does not decode, a watch that throws - each check is given what the last result attempted, and what is watched is what the last result named, where setting it up worked |
| CodexUpdateRuns.WatchesWhatTheCheckNamed | shell/Sources/ShellCore/CodexUpdate.swift:51-58 | after a result the live watch is on its paths if and only if setting it up worked, or they were watched already |
| CodexUpdateRuns.RetargetChecksAgain | shell/Sources/ShellCore/CodexUpdate.swift:52-58 | new paths that are watched are checked once more at once |
| CodexUpdateRuns.LostWatchIsReachable | shell/Sources/ShellCore/CodexUpdate.swift:52-66 | a first check that names paths whose watch throws leads to a live worker with nothing watched |
| CodexUpdateRuns.LostWatchStaysLost | shell/Sources/ShellCore/CodexUpdate.swift:52-66 | after a watch that threw, results naming the same paths never set it up again |
| CodexTruncate.CutPoints | scripts/realtime_output_budget_probe.py:56-70 | the loop over the characters finds the longest prefix and suffix that fit their halves, in order |
| CodexTruncate.TruncateWithByteEstimate | scripts/realtime_output_budget_probe.py:47-73 | the text, nothing, the bare marker, or the cut at those points |
| CodexTruncateLaws.DigitsAreTheNumeral | scripts/realtime_output_budget_probe.py:71-72 | the number in a marker is printed as its decimal numeral, and as no other text: digits without a needless zero in front, each worth its place |
| CodexTruncate.FitStartIsLongest | scripts/realtime_output_budget_probe.py:61-65 | the prefix kept is the longest that fits its half, in whole characters |
| CodexTruncate.FitEndIsLongest | scripts/realtime_output_budget_probe.py:66-69 | the suffix kept is the longest that fits its half, in whole characters |
| CodexTruncate.CutsInOrder | scripts/realtime_output_budget_probe.py:70 | prefix and suffix never overlap |
| CodexTruncate.CodexTruncate | scripts/realtime_output_budget_probe.py:76-88 | the loop over budgets ends, for every text and budget, with the result of the descent |
| CodexTruncateLaws.WithinBudget | scripts/realtime_output_budget_probe.py:76-88 | whatever the budget, even a negative one, the result is within it |
| CodexTruncateLaws.UnchangedExactlyWithin | scripts/realtime_output_budget_probe.py:76-88 | the text comes back unchanged exactly when it was within the budget, or empty |
| CodexTruncateLaws.CutKeepsWhatFits | scripts/realtime_output_budget_probe.py:47-73 | one cut keeps at most its room, as much as fits on each side; the number its marker shows is the tokens above the room, at most what was removed and at most two tokens less |
| CodexTruncateLaws.ResultIsHonest | scripts/realtime_output_budget_probe.py:76-88 | every result is the text, nothing, or a prefix and a suffix within the budget around a marker whose number, read digit by digit, overstates nothing |
| CodexTruncateLaws.SomethingWhenTheMarkerFits | scripts/realtime_output_budget_probe.py:85-87 | nothing is left only where even the bare marker does not fit |
| CodexTruncateBest.EvenResultIsBest | scripts/realtime_output_budget_probe.py:76-88 | where every even offset from either end, short of the middle, is between two characters, the result is the cut with the largest room that fits, or nothing if none does, for every budget |
| CodexTruncateBest.BestExactlyForNarrow | scripts/realtime_output_budget_probe.py:76-88 | for characters of one width that holds for all texts and budgets if and only if the width is one or two bytes |
| CodexTruncateBest.ThreeWideIsNotBest | scripts/realtime_output_budget_probe.py:83-87 | nine three-byte characters cut to six tokens get a smaller room than one that fits |
| CodexTruncateBest.FourWideIsNotBest | scripts/realtime_output_budget_probe.py:83-87 | ten four-byte characters cut to six tokens leave nothing, though a cut fits |
| LoginShellPath.SentinelIsBorderless | shell/Sources/ShellCore/LoginShellPath.swift:146 | no proper prefix of the sentinel is its suffix, so no two occurrences overlap |
| LoginShellPath.DelimitedBy | shell/Sources/ShellCore/LoginShellPath.swift:167-177 | the loop answers exactly when two marks, and no third anywhere, stand in the output, with what lies between them |
| LoginShellPath.Delimited | shell/Sources/ShellCore/LoginShellPath.swift:146-177 | so for the sentinel |
| LoginShellPath.PrintedValueIsFound | shell/Sources/ShellCore/LoginShellPath.swift:152-177 | a printed value amid chatter is found exactly when value and chatter hold no sentinel; a wrong value never is |
| LoginShellPath.ReadExactlyWhenPrinted | shell/Sources/ShellCore/LoginShellPath.swift:155-177 | an output is read as a value if and only if it is that value printed amid chatter, and no other value can be read from it |
| HookMerge.WithoutOurHandlers | scripts/claude_lane_hooks_probe.py:491-508 | a group is left if and only if it is no matcher group or some handler in it is not the probe's; it is left with its own fields and exactly those handlers |
| HookMerge.ForeignIsFilter | scripts/claude_lane_hooks_probe.py:503 | the handlers kept are, if and only if, each one that is not the probe's, once for each time it is there, in order |
| HookMerge.MergeHooks | scripts/claude_lane_hooks_probe.py:511-525 | at every event what remains of the existing groups, then ours; an event is there exactly when something is |
| HookMerge.MergeIsUnique | scripts/claude_lane_hooks_probe.py:514 | the order of the events does not matter |
| HookMerge.GroupsKept | scripts/claude_lane_hooks_probe.py:511-525 | at every event the groups are those existing ones in which something is left to run, in order and without the probe's handlers, and then ours |
| HookMerge.ForeignHandlersKept | scripts/claude_lane_hooks_probe.py:511-525 | at every event every handler that is not the probe's is kept, as often as it is there and in order, and none of the probe's; then come the handlers of ours |
| HookMerge.InstallTwice | scripts/claude_lane_hooks_probe.py:511-525 | installing twice is installing once, if and only if every group installed holds recognised handlers only |
| HookMerge.UninstallAfterInstall | scripts/claude_lane_hooks_probe.py:511-525 | uninstalling after installing is uninstalling alone, under exactly that condition |
| HookMerge.UninstallOfForeign | scripts/claude_lane_hooks_probe.py:511-525 | uninstalling changes nothing if and only if nothing is recognised and nothing is empty |
| Lock.Read | app_bundle/lock.py:41-80 | the locked entries, or the first refusal; an empty lock refuses |
| LockReading.JoinedAlone | app_bundle/lock.py:75 | a text in which no backslash stands before a newline is left as it is |
| LockReading.JoinedAtFirst | app_bundle/lock.py:75 | the first backslash before a newline becomes, with it, a space |
| LockReading.LinesExactly | app_bundle/lock.py:78 | the text is cut at each line break and nowhere else |
| LockReading.EntryExactly | app_bundle/lock.py:76-80 | a line is an entry, without the spaces around it, unless it is blank or a comment |
| LockReading.EveryLineIsSuch | app_bundle/lock.py:76-80 | and every line is spaces around a text that begins and ends with none |
| LockReading.PinnedExactly | app_bundle/lock.py:24 | an entry is pinned to a name and a version if and only if it begins with them and `==` between, with spaces at will, the version as long as it can be |
| LockReading.HashesAre | app_bundle/lock.py:25 | its hashes are all the marks with sixty-four hexadecimal digits after them that are in it, in order, and nothing else |
| LockReading.EntryTakenExactly | app_bundle/lock.py:53-68 | an entry is taken if and only if it is pinned and carries a hash, and refused for the first of the two it lacks |
| LockReading.LockReadExactly | app_bundle/lock.py:41-70 | a lock is read if and only if it has entries and each of them is taken; what is read is each with its version and all its hashes, in order |
| LockReading.LockRefusedExactly | app_bundle/lock.py:41-70 | else it is refused for its first entry that is not taken, or, without entries, as pinning nothing |
| Lock.AsLock | app_bundle/run.py:448-467 | the printed lock: header, and two lines for each entry kept |
| LockReading.EngineLeftOut | app_bundle/run.py:459-461 | the engine's own distribution, under either spelling of its name, is left out where it was asked for or is direct, and nothing else is |
| LockRoundTrip.EntriesComeBack | app_bundle/lock.py:73-80 | the printed entry lines join and strip to exactly one entry each |
| LockRoundTrip.PinnedReadsBack | app_bundle/lock.py:24 | the pin pattern takes back exactly name and version |
| LockRoundTrip.HashReadsBack | app_bundle/lock.py:25 | the hash pattern finds exactly the one digest |
| LockRoundTrip.LockReadsBack | app_bundle/lock.py:41-70 | a printed lock reads back as exactly the kept entries with their one hash; with none kept it is refused |
| LockRoundTrip.ReportReadsBack | app_bundle/run.py:448-467 | from a report in any order: its kept entries, each as often as it was there, by name |

## Left out

- TomlRemoving.RemoveKeyTwice: for one whole document the condition is sufficient only, since a value over several lines whose later lines assign no such key is removed for good as well; over all that may follow a line it is exact (`TomlLimits.RemovedForGoodExactlyWhenClosed`).
- SupervisorRuns.StepKeeps: a call of `shutDown` that finds no supervise task still takes its return as a step of its own, which allows more orders than the code has.
- StderrPipeline.ReturnsWithEverything: `waitForExit` is the caller's steps of the system rather than a method of a class, because it suspends between any two of them.
- StderrLines.RingShows: a line is its bytes; the decoding of each line to text is not part of this model.
- TomlScan.StatementStarts: a character is a Unicode scalar value, so a carriage return before a newline is a character of its own; Swift's grapheme clusters are not modelled.
- TomlString.UnescapeEscape: the JSON escaper of the Foundation library is the function `Escape`, from its documented behaviour; numbers are given as their digits.
- ShellConfigurationFile.File.Replace: reading the candidate file back with the engine's own program is an outcome given from outside, and so is the step after the write; `TelegramBinding.Installation` has the real ones.
- TelegramSaving.Credentials.Save: writing the private file is one outcome given from outside, and the file does not change between its two readings.
- CodexTruncate.TruncateWithByteEstimate: beside each byte offset stands the character it starts, in place of slicing and decoding the encoded bytes.
- CodexTruncateBest.EvenResultIsBest: for text of mixed widths the condition is sufficient only; for one width `CodexTruncateBest.BestExactlyForNarrow` is exact.
- LoginShellPath.Delimited: finding the sentinel compares scalar by scalar; running the shell, its time limit and the pipe reader's collection cap are not modelled.
- HookMerge.MergeHooks: which handlers are the probe's own is a predicate given from outside, and every event holds a list of groups.
- Lock.Read: the two patterns are functions that take the longest runs, which for these patterns is the match; a break of two characters counts as two, with a blank line between that is dropped.
- Lock.AsLock: sorting the report by name is the caller's, and the text of the header comment is a parameter.
- Reassembly.Reassembly.Take: the random mask of a pong is given with the frame.
- Real processes, signals, sockets, pipes and file watching are steps of an environment that may take them in any order; process numbers that the system reuses are distinct identities here.
- The user interface, the readiness polling and Telegram stages of `ShellModel.swift`, and the phases of `ControlPanel.swift`.
- The HTTP upgrade, SHA-1 and base64 in `websocket.py`.
- The bridge core, the adapters and the decisions of `codex_update.py`.
- Building, signing, fetching and verifying the app bundle.

# ENOS, verified in Dafny

A Dafny model of the parts of the ENOS kernel that are state machines or parsers:
the preemptive scheduler, the shell's calculator, the physical frame allocator,
the VGA text writer, the line editor, the page tables with the system-call
pointer check, and the protocol between the scheduler lock and the interrupt flag.

`dafny verify dfyconfig.toml` checks everything.

## How it is organised

Code that the kernel runs by updating things in place is a class with loops
(`TaskManager`, `CalcParser`, `BumpAllocator`, `Writer`, `ScancodeQueue`,
`HistoryState`, `LineEditor`, `Shell`, `PageTables`, `Cpu`). Each method is proved
to compute a function on values, and the theorems are proved about those functions.

- Scheduler: `Tasks` says what each operation does to the task vector;
  `TaskManagement` is the class; `SchedulerInvariant` has the inductive invariant;
  `SchedulerByPid` replaces index arithmetic by a description of what each event
  does to each pid; `SchedulerRuns`, `SchedulerAccounting`, `SchedulerFairness` and
  `SchedulerRoundRobin` hold the theorems over whole runs of registrations, ticks,
  sleeps, kills and faults; `SchedulerReports` says what the shell is told, by pid and
  by the events so far; `SchedulerWitnesses` has the runs that show where two properties
  fail.
- Calculator: `CalcGrammar` has the concrete syntax, its rendering as bytes and its
  value under checked 64-bit arithmetic; `CalcParsing` the parser as a function of the
  unread bytes with soundness and completeness; `CalcAnswers` what the answers mean in
  plain arithmetic and for the bytes typed; `Calculator` the class.
- Frames: `FrameModel` defines the free frames of a Multiboot memory map and the
  resumable walk over it; `FrameAllocation` is the class over byte offsets.
- Screen: `VgaText` is the text as a list of lines; `VgaLaws` what of it is on which
  cell; `VgaWriter` the 25 by 80 array.
- Line editor: `KeyboardQueue` is the ring buffer; `LineModel` and `LineRuns` the
  editor as a value and its theorems; `LineLaws` what each key does after any stream of
  scancodes; `LineEditing` the classes.
- `Paging` and `Syscalls`: tables, the processor's walk and the range test.
- `LockProtocol`: one core, interrupts, traps, context switches, guards and the lock.

Machine integers are unbounded with the source's behaviour written out: `wrapping_add`
is a remainder, `saturating_*` a clamp, `as u32` a remainder, and a u32 addition that
overflows panics, because the build script builds with debug assertions. Run theorems
about the scheduler are stated for runs of fewer than 2^64 - 2^32 events, after which
the tick counter itself could wrap.

Three properties one might expect are false of the code, and the model shows where:

- The frame walk hands out exactly the free frames if and only if every region it
  enters starts by 0xFFFFF000 and ends below 0xFFFFFFFF (`FrameModel.DrainIsExact`).
  Otherwise it hands out the frame at address 0 or panics.
- `top` reads the tick count T first and the run ticks later, at tick count T'. Its
  percentages stay within 100 in every run with those two counts if and only if
  100 T' < 101 T, for T at least 1 (`SchedulerWitnesses.TopIsExact`). In every run they
  sum to at most 100 T'/T (`SchedulerAccounting.TopPercentages`); one tick after the
  first can make them 200 (`SchedulerWitnesses.TopCanExceedAHundred`).
- A Ready task is not always dispatched within one turn of the list
  (`SchedulerWitnesses.OneTurnIsNotAlwaysEnough`). A tick dispatches a Ready task or
  shortens its wait if and only if it does not bury a killed current task right before
  it in a list of more than two (`SchedulerFairness.TickShortensExactly`). While nobody
  kills the current task, faults or registers, one turn is enough, from any state, one
  about to bury included (`SchedulerFairness.BoundedWaiting`); in every run whatsoever
  two turns, and two ticks per registration, are (`SchedulerFairness.NoKernelTaskStarves`).

## Model

| member | source | states |
|---|---|---|
| `TaskManagement.TaskManager.constructor` | src/task.rs:154-162 | the initial state: no tasks, next pid 2, main thread not tracked |
| `TaskManagement.TaskManager.EnsureMainTaskTracked` | src/task.rs:164-170 | pid 1 is entered first in the list and made current, once |
| `TaskManagement.TaskManager.WakeSleepingTasks` | src/task.rs:172-180 | the loop makes Ready exactly the sleepers whose deadline has come and touches nobody else |
| `TaskManagement.TaskManager.TakeOut` | src/task.rs:191-196 | one task that is not current leaves the list and the index follows the current task |
| `TaskManagement.TaskManager.CleanupTerminatedNonCurrent` | src/task.rs:182-204 | from every state the removing loop equals filtering out the Terminated tasks before and after the current one, which stays current |
| `TaskManagement.TaskManager.FirstReadyIndex` | src/task.rs:206-208 | the least Ready index, or none |
| `TaskManagement.TaskManager.NextReadyAfter` | src/task.rs:210-223 | from any start, in range or not, the modular scan finds the first Ready index after it going round, the start last; an empty list has none |
| `TaskManagement.TaskManager.ChooseNext` | src/task.rs:270-282 | from any state, the current index in range or not, the three-stage fallback chain answers as its first stage |
| `TaskManagement.TaskManager.RegisterNamedTask` | src/task.rs:225-234 | a kernel task with the next pid is appended; the pid counter's overflow is refused |
| `TaskManagement.TaskManager.RemoveCurrent` | src/task.rs:255-261 | the current task is removed and an index past the end goes back to 0 |
| `TaskManagement.TaskManager.SettleCurrent` | src/task.rs:254-266 | a Terminated current task is dropped, any other is charged a tick and its stack pointer saved |
| `TaskManagement.TaskManager.SwitchToNext` | src/task.rs:270-285 | the next task becomes current and its saved stack pointer is returned, or the scheduler panics |
| `TaskManagement.TaskManager.FreshenList` | src/task.rs:243-245 | tracking, waking and cleaning up in that order |
| `TaskManagement.TaskManager.ScheduleNext` | src/task.rs:236-286 | the timer tick computes `Tick` from every state, panics included |
| `TaskManagement.TaskManager.SleepCurrentTask` | src/task.rs:288-315 | computes `Sleep`; true exactly when the current task is a live user task |
| `TaskManagement.TaskManager.PositionOf` | src/task.rs:322-324 | the least index holding the pid |
| `TaskManagement.TaskManager.KillTaskByPid` | src/task.rs:317-343 | computes `Kill` with its verdict: refused, not found, marked or removed |
| `TaskManagement.TaskManager.TerminateCurrentUserTaskFromFault` | src/task.rs:345-385 | computes `Fault` from every state, panics included |
| `TaskManagement.TaskManager.SchedulerStats` | src/task.rs:387-408 | the tick count, the task count with the virtual tasks, the current pid |
| `TaskManagement.TaskManager.ProcessSnapshot` | src/task.rs:410-452 | the listing built by the loops is the idle task, a pending main thread, then the tasks in order |
| `Tasks.FirstReady` | src/task.rs:206-208 | the least Ready index of a range, and none exactly when the range has none |
| `Tasks.Sweep` | src/task.rs:201-203 | the index ends in range of a nonempty list |
| `TaskLemmas.SweepCleans` | src/task.rs:182-204 | from every state, nobody but the current task is left Terminated |
| `TaskLemmas.SweepSkips` | src/task.rs:190-196 | removing one Terminated task and repairing the index does not change where the clean-up ends |
| `TaskLemmas.SweepEnds` | src/task.rs:201-203 | with nothing left to remove the clean-up only repairs an index out of range |
| `TaskLemmas.KillKeepsCurrent` | src/task.rs:317-343 | from every state with the index in range, a kill removes that task alone and the same task stays current |
| `TaskLemmas.NearestIsNext` | src/task.rs:215-220 | the Ready index reached in the fewest steps round the list is the answer |
| `SchedulerInvariant.TickKeeps` | src/task.rs:236-286 | no tick panics in a state satisfying the invariant, and every tick keeps it |
| `SchedulerInvariant.SleepKeeps` | src/task.rs:288-315 | a sleep keeps the invariant: its deadline is strictly ahead and at most 2^32 - 1 ticks away |
| `SchedulerInvariant.KillKeeps` | src/task.rs:317-343 | a kill keeps the invariant |
| `SchedulerInvariant.RegisterKeeps` | src/task.rs:225-234 | a registration keeps pids increasing along the list |
| `SchedulerInvariant.FaultKeeps` | src/task.rs:345-385 | the fault path panics exactly when no task is registered or a kernel task is current, and otherwise keeps the invariant |
| `SchedulerInvariant.WakeIsIdle` | src/task.rs:366 | between ticks nobody is due, so the wake pass of the fault path changes nothing |
| `SchedulerInvariant.SweepIsIdle` | src/task.rs:182-204 | in reachable states the clean-up pass removes nobody |
| `SchedulerByPid.StepKeeps` | src/task.rs:225-385 | every event keeps the invariant and moves the clock by one tick or not at all |
| `SchedulerByPid.StepByPid` | src/task.rs:164-385 | for every pid, the vector surgery with its index repairs does exactly what the pid-level description says |
| `SchedulerRuns.ReachableStatesAreSafe` | src/task.rs:164-385 | in every state of every run the invariant holds, no tick panics, and a fault panics exactly in the stated case |
| `SchedulerRuns.PidsAreNeverReused` | src/task.rs:164-170 | a pid once issued and gone never returns |
| `SchedulerRuns.OthersKeepTheirContext` | src/task.rs:263 | no event alters the saved stack pointer of a task it was not handed one for |
| `SchedulerRuns.ContextIsPreserved` | src/task.rs:236-315 | in every run each live task's saved stack pointer is the one last handed over for it |
| `SchedulerRuns.SwitchResumesLastSaved` | src/task.rs:284-285 | every switch returns the stack pointer last saved for the task it switches to |
| `SchedulerRuns.SwitchResumesCurrent` | src/task.rs:369-384 | every switch lands on a Ready task |
| `SchedulerRuns.SleepCallsAreExact` | src/task.rs:288-315 | in every reachable state a sleep is accepted exactly when some task is registered and pid 1, not killed, is running; pid 1 then sleeps for max(1, ticks) with its stack pointer saved, and a refused call changes nothing |
| `SchedulerRuns.WakesExactlyOnTime` | src/task.rs:172-180 | a sleeper left alone is asleep before its deadline's tick and Ready from that tick on |
| `SchedulerRuns.SleeperIsEarly` | src/task.rs:310-313 | between steps every deadline is strictly ahead and within the longest sleep |
| `SchedulerRuns.NeverDispatchedEarly` | src/task.rs:236-286 | no tick before the deadline dispatches the sleeper |
| `SchedulerAccounting.TicksAreConserved` | src/task.rs:236-266 | the tick count is the run ticks of the living plus those of the gone plus the uncharged ticks |
| `SchedulerAccounting.TopPercentages` | src/shell.rs:724-729 | in every run the printed percentages sum to at most 100 T'/T, and to at most 100 when 100 T' < 101 T |
| `SchedulerWitnesses.TopIsExact` | src/shell.rs:713-729 | the percentages stay within 100 in every run with tick counts T and T' at the two reads if and only if 100 T' < 101 T |
| `SchedulerWitnesses.TopCanExceedAHundred` | src/shell.rs:713-729 | a run in which a tick between the two reads makes the percentages sum to 200 |
| `SchedulerAccounting.SnapshotIsConsistent` | src/task.rs:387-452 | distinct pids, as many as the statistics say, at most one running, and it is the current one |
| `SchedulerReports.KillVerdictIsExact` | src/task.rs:317-343 | pid 0 and kernel pids are refused, an unknown pid is not found, pid 1 is marked while it runs and removed at once while it does not |
| `SchedulerReports.FaultIsExact` | src/task.rs:345-385 | the user task goes and the second of the tasks left is dispatched, or the only one; the panic says whether nobody is left or a kernel task was running |
| `SchedulerReports.TicksAreCounted` | src/task.rs:387-408 | the tick count reported is the number of timer ticks since boot |
| `SchedulerReports.CurrentIsReported` | src/task.rs:394-402 | the pid reported is that of the running task, 0 while the main thread is not tracked |
| `SchedulerReports.ListingTells` | src/task.rs:410-452 | every task is listed in order under its pid, name, state, privilege and run ticks, after the idle task and a main thread not yet tracked |
| `SchedulerReports.PidsAreIssuedInOrder` | src/task.rs:225-234 | the next pid is 2 plus the number of registrations so far |
| `SchedulerReports.RegistrationsRunOut` | src/task.rs:232 | a registration is refused exactly when the 32-bit pid counter could not be moved on |
| `SchedulerReports.NamesAreKept` | src/task.rs:225-234 | in every run a task goes by the name its pid was registered under, and pid 1 by `user_main` |
| `SchedulerFairness.NextReadyIsNearest` | src/task.rs:210-223 | the scan picks the cyclically nearest Ready index, and none exactly when none is Ready |
| `SchedulerFairness.FallbackIsIdle` | src/task.rs:270-282 | the two fallbacks never change the scan's answer |
| `SchedulerFairness.BurialTick` | src/task.rs:254-285 | the tick that buries the current task moves everybody one place down and dispatches the task after its successor, when there is one |
| `SchedulerFairness.TickShortensExactly` | src/task.rs:236-286 | a tick dispatches a Ready task or shortens its wait if and only if it does not bury the task right before it in a list of more than two |
| `SchedulerFairness.WindowApproaches` | src/task.rs:236-286 | over gentle events a waiting Ready task is dispatched or its bound falls by one each tick |
| `SchedulerFairness.BoundedWaiting` | src/task.rs:236-286 | over ticks, sleeps and kills of others, a task that stays Ready is dispatched within as many ticks as there were tasks, from any state with the main thread tracked |
| `SchedulerFairness.KernelTasksNeverStarve` | src/task.rs:210-223 | the same for every kernel task, which needs no proviso about staying Ready |
| `SchedulerWitnesses.OneTurnIsNotAlwaysEnough` | src/task.rs:254-261 | a run from boot in which a task stays Ready and is not dispatched in as many ticks as there are tasks, because a burial passes it over |
| `SchedulerRoundRobin.TickBalances` | src/task.rs:210-223 | from every state, a tick that dispatches one of two Ready tasks found it ahead of the other and leaves it behind, and any other tick keeps their order |
| `SchedulerRoundRobin.TurnsAreShared` | src/task.rs:236-286 | over the same events, two tasks Ready throughout are dispatched numbers of times that differ by at most one: by the change in which of them has its turn first |
| `SchedulerFairness.NoKernelTaskStarves` | src/task.rs:225-385 | in every run, with any registrations, sleeps, kills and faults, a kernel task is dispatched within twice as many ticks as tasks and registrations |
| `CalcGrammar.TruncIsTruncation` | src/shell.rs:554-565 | quotient and remainder truncate toward zero |
| `CalcGrammar.DivisionOverflow` | src/shell.rs:559-565 | division and remainder overflow exactly at the least integer by -1 |
| `CalcGrammar.ExprFits` | src/shell.rs:532-546 | every value an expression takes is a 64-bit signed integer |
| `CalcParsing.FactorSound` | src/shell.rs:573-589 | an accepted factor is a rendering with the value returned |
| `CalcParsing.MulTailSound` | src/shell.rs:548-571 | the same for the loop over multiplicative operators |
| `CalcParsing.AddTailSound` | src/shell.rs:532-546 | the same for the loop over additive operators |
| `CalcParsing.FactorComplete` | src/shell.rs:573-614 | on every rendering of a factor the parser returns its value or its error and stops right after it |
| `CalcParsing.MulTailComplete` | src/shell.rs:548-571 | the same for the loop over multiplicative operators |
| `CalcParsing.AddTailComplete` | src/shell.rs:532-546 | the same for the loop over additive operators |
| `CalcParsing.RenderingsAreEvaluated` | src/shell.rs:616-624 | on every rendering, whatever its white space, the answer is the expression's value or first error |
| `CalcParsing.AnswersExactlyRenderings` | src/shell.rs:616-624 | the answer is v if and only if the bytes render some expression whose value is v |
| `CalcAnswers.SumAndDifference` | src/shell.rs:532-546 | a sum is r exactly when r fits and r - b is a, a difference exactly when r + b is a; otherwise an overflow |
| `CalcAnswers.Product` | src/shell.rs:548-571 | a product is the sum of b copies of a, or an overflow |
| `CalcAnswers.QuotientAndRemainder` | src/shell.rs:554-565 | quotient and remainder of the same operands satisfy a = bq + r with a small remainder of the sign of a; zero divisors and the one overflow are reported |
| `CalcAnswers.ExprIsExact` | src/shell.rs:532-589 | the value of an expression is its value in the unbounded integers, unless a value on the way does not fit 64 bits or a divisor is zero |
| `CalcAnswers.AnswersAreExact` | src/shell.rs:616-624 | the answer is v if and only if the bytes render an expression of exact value v whose evaluation fits 64 bits |
| `CalcAnswers.AnswersNumeral` | src/shell.rs:591-613 | the decimal numeral of n is answered by n, past 2^63 - 1 by an overflow |
| `CalcAnswers.AnswersSums` | src/shell.rs:536-543 | byte 43 adds and byte 45 subtracts |
| `CalcAnswers.AnswersProducts` | src/shell.rs:551-553 | byte 42 multiplies |
| `CalcAnswers.AnswersQuotients` | src/shell.rs:554-565 | byte 47 divides and byte 37 takes the remainder, with zero divisors reported |
| `CalcAnswers.AnswersPrecedence` | src/shell.rs:532-571 | a multiplication binds before the addition to its left |
| `CalcAnswers.AnswersFromTheLeft` | src/shell.rs:532-546 | subtractions are done from the left |
| `CalcAnswers.AnswersParentheses` | src/shell.rs:581-586 | parentheses change that |
| `CalcAnswers.AnswersSigns` | src/shell.rs:574-579 | a sign in front negates or does nothing |
| `CalcAnswers.SpaceInFront` | src/shell.rs:516-520 | the five white-space bytes make no difference in front |
| `CalcAnswers.NumberExpected` | src/shell.rs:608-610 | a text that begins with no digit, sign, parenthesis or white space is told that a number was expected |
| `CalcAnswers.ParenExpected` | src/shell.rs:581-586 | an opening parenthesis before a whole expression is reported as not closed |
| `CalcAnswers.LeftOver` | src/shell.rs:616-624 | a closing parenthesis after a whole expression is reported as trailing input |
| `Calculator.CalcParser.constructor` | src/shell.rs:509-514 | the cursor starts at the first byte |
| `Calculator.CalcParser.SkipWs` | src/shell.rs:516-520 | the cursor moves past the white space and no further |
| `Calculator.CalcParser.Consume` | src/shell.rs:522-530 | takes the byte exactly when it is the next token |
| `Calculator.CalcParser.ReadDigits` | src/shell.rs:593-613 | the digit loop with its two checks equals one range check of the whole numeral |
| `Calculator.CalcParser.ReadNumber` | src/shell.rs:591-613 | answers as `ParseNumber` of the unread bytes |
| `Calculator.CalcParser.ReadFactor` | src/shell.rs:573-589 | answers as `ParseFactor` of the unread bytes |
| `Calculator.CalcParser.ReadTerm` | src/shell.rs:548-571 | the loop answers as `ParseTerm` of the unread bytes |
| `Calculator.CalcParser.ReadExpr` | src/shell.rs:532-546 | the loop answers as `ParseExpr` of the unread bytes, and always returns |
| `Calculator.EvalCalcExpression` | src/shell.rs:616-624 | the calculator answers as `Calculate`; trailing input is an error |
| `FrameModel.AlignUp` | src/memory.rs:134-141 | the least multiple of the page size not below the value |
| `FrameModel.FramesOfMembers` | src/memory.rs:148-201 | the frames listed for an entry are exactly the free ones, stated in the entry's fields: kind 1, aligned, between base and base plus length as their halves make them, from 1 MiB to 4 GiB, clear of the kernel |
| `FrameModel.BenignByFields` | src/memory.rs:154-172 | which regions the walk handles, in the entry's fields |
| `FrameModel.AllFramesMembers` | src/memory.rs:143-204 | a frame is listed exactly when some available region offers it |
| `FrameModel.AllFramesDistinct` | src/memory.rs:143-204 | with disjoint regions no frame is listed twice |
| `FrameModel.PastKernelKeeps` | src/memory.rs:176-189 | the jump over the kernel image loses no frame and lands clear of it |
| `FrameModel.AllocateTakesFirst` | src/memory.rs:143-204 | each call hands out the first frame still pending, or reports that none is |
| `FrameModel.DrainsPending` | src/memory.rs:143-204 | the n-th call answers the n-th pending frame, and out of memory for ever after the last |
| `FrameModel.HighRegionGivesZero` | src/memory.rs:168-172 | a region starting above the last page yields the frame at address 0 |
| `FrameModel.LongRegionFails` | src/memory.rs:191-195 | a region reaching the last 32-bit address ends in an overflow |
| `FrameModel.DrainIsExact` | src/memory.rs:143-204 | the calls hand out exactly the free frames in order, and exhaustion is permanent, if and only if every entered region is benign |
| `FrameAllocation.BumpAllocator.constructor` | src/memory.rs:109-124 | the walk starts at the first entry; without a map there are no entries |
| `FrameAllocation.BumpAllocator.NextEntry` | src/memory.rs:199-200 | the offset moves by the entry's size plus four and stays on an entry boundary |
| `FrameAllocation.BumpAllocator.TryRegion` | src/memory.rs:167-197 | the next frame of the region, or that it has none left |
| `FrameAllocation.BumpAllocator.AllocateFrame` | src/memory.rs:143-204 | one call of the loop is one step of the walk |
| `FrameAllocation.Drain` | src/memory.rs:143-204 | calling until exhaustion collects all free frames in map order |
| `VgaText.FeedAllConcat` | src/vga_buffer.rs:115-126 | writing a text in pieces is writing it in one |
| `VgaText.FeedAllFits` | src/vga_buffer.rs:60-79 | no line ever grows past 80 bytes |
| `VgaText.EraseUndoesPut` | src/vga_buffer.rs:102-113 | a backspace takes back the byte just written; after a wrap it leaves the fresh line behind |
| `VgaText.NewlineScrolls` | src/vga_buffer.rs:81-90 | a line break moves what is shown up one row and blanks the bottom row |
| `VgaText.PlainTextLayout` | src/vga_buffer.rs:60-126 | plain text is laid out line by line, each cut into rows of 80, with no empty row after a full one |
| `VgaLaws.TextIsShown` | src/vga_buffer.rs:115-126 | the lines of a text without backspaces, joined, are its bytes without the breaks: printable ASCII as it is, any other byte as 0xfe |
| `VgaLaws.PlainTextIsShown` | src/vga_buffer.rs:115-126 | printable text is shown byte for byte |
| `VgaLaws.CellsShowLine` | src/vga_buffer.rs:60-79 | byte i of a line of any length is at column i mod 80 of its row, the last row at the bottom of the screen |
| `VgaLaws.CellsAboveAreBlank` | src/vga_buffer.rs:81-100 | the rows above it are blank |
| `VgaLaws.ShortLine` | src/vga_buffer.rs:60-79 | a line of up to 80 bytes is on the bottom row from the left, blanks after it |
| `VgaWriter.Writer.ClearRow` | src/vga_buffer.rs:92-100 | one row is blanked and no other cell changes |
| `VgaWriter.Writer.ScrollUp` | src/vga_buffer.rs:82-87 | the in-place copy moves every row up by one |
| `VgaWriter.Writer.NewLine` | src/vga_buffer.rs:81-90 | the screen shows the last 25 lines after a line break |
| `VgaWriter.Writer.WriteByte` | src/vga_buffer.rs:60-79 | the screen shows the last 25 lines after the byte, wrapping only when a full line gets one more |
| `VgaWriter.Writer.Backspace` | src/vga_buffer.rs:102-113 | the last byte of the current line is taken back, never across a line break |
| `VgaWriter.Writer.WriteString` | src/vga_buffer.rs:115-126 | the screen shows the last 25 lines after the whole string, unprintable bytes replaced |
| `VgaWriter.Writer.ClearScreen` | src/vga_buffer.rs:180-187 | whatever the screen held, it shows the empty text |
| `VgaWriter.Display` | src/vga_buffer.rs:180-206 | after a clear, any strings leave the last 25 lines of their joined text |
| `KeyboardQueue.ScancodeQueue.constructor` | src/shell.rs:18-25 | the ring starts empty |
| `KeyboardQueue.ScancodeQueue.Push` | src/shell.rs:27-36 | appends unless full; accepted codes remain processed codes followed by the ring |
| `KeyboardQueue.ScancodeQueue.Pop` | src/shell.rs:38-47 | takes the oldest; accepted codes remain processed codes followed by the ring |
| `LineModel.KeysArePrintable` | src/shell.rs:322-406 | every key maps to a printable ASCII character or to nothing |
| `LineModel.LetterCase` | src/shell.rs:397-403 | a letter key types its letter, upper case exactly when one of shift and caps lock is on |
| `LineModel.TrimCutsBlanks` | src/shell.rs:946-951 | the submitted line is the typed one without the blanks at its ends |
| `LineModel.RecordKeeps` | src/shell.rs:124-143 | history stays at most 64 entries with no two adjacent equal |
| `LineModel.ProcessKeeps` | src/shell.rs:286-320 | every scancode keeps the line at most 256 printable characters and the history in order |
| `LineRuns.Typed` | src/shell.rs:408-473 | after every scancode stream the editor's bounds hold |
| `LineRuns.KeyboardIsDecidedByStream` | src/shell.rs:408-458 | prefix, caps lock and shift are decided by the stream: last byte, parity of presses, latest shift event |
| `LineRuns.PrefixedCodesNeverType` | src/shell.rs:419-431 | a code after the prefix never types and leaves shift, caps and entries alone |
| `LineRuns.TypingAfterAnyStream` | src/shell.rs:286-320 | after any stream that does not end in the prefix, character keys append their text to the line, up to 256 characters |
| `LineRuns.TypingFillsTheLine` | src/shell.rs:307-319 | typing character keys appends their text to the line, up to 256 characters |
| `LineRuns.UpsShowOlder` | src/shell.rs:145-163 | k ups show the entries backwards and stop at the oldest |
| `LineRuns.DownsShowNewer` | src/shell.rs:165-174 | downs show the entries forwards and end at the draft |
| `LineRuns.NavigationUndoesItself` | src/shell.rs:232-262 | after k ups, min(k, entries) downs or more restore the line; fewer show the entries in between |
| `LineLaws.KeysFollowLayout` | src/shell.rs:322-406 | every key types as its row of the keyboard says, without and with shift; caps lock turns shift round for letters only |
| `LineLaws.CharacterKey` | src/shell.rs:307-319 | after any stream, a key that types appends its character, by the latest shift event and the parity of caps lock, unless the line has 256 |
| `LineLaws.OtherCode` | src/shell.rs:408-473 | any other code but Backspace, Tab and Enter leaves line and history alone |
| `LineLaws.TabTypesBlanks` | src/shell.rs:462-466 | Tab appends four blanks, as far as they fit |
| `LineLaws.BackspacesCut` | src/shell.rs:287-299 | after any stream, m backspaces cut m characters off the end of the line, or empty it |
| `LineLaws.ErasingUndoesTyping` | src/shell.rs:286-320 | after n character keys, m backspaces leave the line with the text of the first n - m |
| `LineLaws.EnterRecords` | src/shell.rs:945-959 | Enter empties the line, ends navigation and records the line without its outer blanks, unless it is blank or the newest already |
| `LineLaws.HistoryIsNewestCommands` | src/shell.rs:124-143 | after any stream the history is the 64 newest commands entered, runs of the same one counted once |
| `LineLaws.ArrowsNavigate` | src/shell.rs:419-431 | k presses of E0 48 and m of E0 50 show the k-th newest command, then the newer ones, and in the end the line again |
| `LineEditing.HistoryState.RecordCommand` | src/shell.rs:124-143 | computes `Record` |
| `LineEditing.HistoryState.Reset` | src/shell.rs:119-122 | navigation ends and the draft is emptied |
| `LineEditing.HistoryState.Previous` | src/shell.rs:145-163 | computes `Older` and returns the entry now shown |
| `LineEditing.HistoryState.Next` | src/shell.rs:165-174 | computes `Newer` and returns the entry or draft now shown |
| `LineEditing.LineEditor.ReplaceInputLine` | src/shell.rs:232-247 | the loop leaves the text cut to 256 characters |
| `LineEditing.LineEditor.HistoryUp` | src/shell.rs:249-255 | computes `Up` |
| `LineEditing.LineEditor.HistoryDown` | src/shell.rs:257-262 | computes `Down` |
| `LineEditing.LineEditor.EvaluateCommand` | src/shell.rs:945-959 | the trimmed line is recorded and the line emptied |
| `LineEditing.LineEditor.PushChar` | src/shell.rs:286-320 | erase, submit or insert, each with its effect on navigation |
| `LineEditing.LineEditor.ProcessMake` | src/shell.rs:443-471 | computes `Plain` for a key press |
| `LineEditing.LineEditor.ProcessScancode` | src/shell.rs:408-473 | computes `Process` |
| `LineEditing.Shell.EnqueueFromIrq` | src/shell.rs:264-266 | the interrupt adds to the ring exactly when there is room and never touches the editor |
| `LineEditing.Shell.PollOnce` | src/shell.rs:272-282 | one code leaves the ring and is acted on |
| `LineEditing.Shell.Deliver` | src/shell.rs:264-266 | of a burst of interrupts as many codes as the ring has room for are accepted, in order |
| `LineEditing.Shell.PollRound` | src/shell.rs:272-282 | one round under a burst: what comes in, what goes out, what stays in the ring, and when the poll ends |
| `LineEditing.Shell.PollInput` | src/shell.rs:268-284 | under any bursts arriving between the pops, exactly which codes are accepted and processed, and the editor has seen the processed ones in order |
| `LineEditing.PollEmptiesRing` | src/shell.rs:268-284 | without interrupts in between one poll processes everything in the ring, oldest first |
| `Paging.BitOrLow` | src/paging.rs:45-52 | or-ing flags into an aligned address leaves the address alone |
| `Paging.PageTables.constructor` | src/paging.rs:23-25 | the tables start as zeroes |
| `Paging.PageTables.Init` | src/paging.rs:39-60 | the loops give the tables their boot contents |
| `Paging.BootTables` | src/paging.rs:39-60 | the boot code establishes what the walk theorems assume |
| `Paging.BootEntries` | src/paging.rs:39-60 | every entry holds its frame's address, present and writable, with user access in the second table and its directory entry alone |
| `Paging.IdentityMapped` | src/paging.rs:39-60 | every address below 8 MiB maps to itself, user access exactly from 4 MiB on, nothing above is mapped |
| `Paging.RangeTestIsExact` | src/paging.rs:27-37 | the range test holds exactly for the nonempty ranges whose every byte is user-accessible |
| `Syscalls.AcceptedBuffersAreUserMemory` | src/syscall.rs:9-19 | a buffer is accepted exactly when its length is allowed and every byte is user memory; a bad length is reported first |
| `Syscalls.SyscallDispatcher` | src/syscall.rs:22-73 | yield and sleep put the caller to sleep or report a bad context; other calls leave the scheduler alone |
| `LockProtocol.StepKeeps` | src/interrupts.rs:179-202 | every step of every thread, interrupt and switch keeps the protocol's invariant, saving the flag and clearing it being two steps |
| `LockProtocol.NoHandlerFindsTheLockHeld` | src/task.rs:457-496 | in every reachable state the lock is held only with interrupts off, so no interrupt or trap finds it held |
| `LockProtocol.GuardStaysOpen` | src/interrupts.rs:186-192 | whatever happens after the flag is saved, interrupts and switches before the clear included, the saved value stays on the thread's stack |
| `LockProtocol.GuardedRegionIsAtomic` | src/interrupts.rs:190-201 | once the flag is cleared the thread is neither interrupted nor switched away from until it leaves the guard |
| `LockProtocol.GuardRestoresFlag` | src/interrupts.rs:183-201 | leaving a guard restores the flag as it was when the guard began, at any nesting depth |
| `LockProtocol.Cpu.WithoutInterrupts` | src/interrupts.rs:179-202 | the guard as code restores the flag around any nested body, and every acquisition of the lock in it happens with interrupts off |
| `LockProtocol.Cpu.Run` | src/task.rs:466-482 | inside a guard the lock is taken once per use, each time with interrupts off, and given back |

## Left out

- Inline assembly, port I/O, interrupt-controller, timer and serial programming, and the boot jump: hardware effects without visible semantics; a stack pointer is an opaque number.
- Descriptor tables and the Ring 3 demo program: bit packing and one fixed program.
- The kernel heap and the RAM filesystem: they would only add easy members.
- Shell commands other than the calculator and the arithmetic of `top`: help text, identities and formatting.
- The memory of a task's stack: the mock frame built at registration is a number given by the caller.
- Runs of 2^64 - 2^32 events or more, in which the tick counter could wrap a deadline.
- Stack exhaustion of the calculator's recursion on deeply nested input.
- White space beyond ASCII in `trim`: the input line holds printable ASCII only, as `LineModel.ProcessKeeps` shows.
- The hardware cursor of the VGA card, and erasing a recalled line that wraps past column 80 on the screen.
- `SCANCODE_QUEUE`, `HISTORY`, `INPUT_BUFFER` and the other locks: the lock protocol is stated for the scheduler's lock alone.
- UTF-8 validation of a printed buffer: its verdict is a parameter of `Syscalls.SyscallDispatcher`.
- SchedulerWitnesses.TopIsExact: stated below 2^64 / 100 ticks, because beyond that the saturating product clips each percentage.
- TaskManagement.TaskManager.ScheduleNext: the index check after the first clean-up is not repeated, because the clean-up leaves the index in range.

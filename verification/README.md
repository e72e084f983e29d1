# A verified model of iojxd

iojxd is a C++ wrapper around libev with a Lua interface, and an online judge written on top
of it. This project models the parts that hold state from one event to the next and proves
what they keep over every run.

| file | component |
|---|---|
| `CyclicQueue.dfy` | the circular linked queue of `src/util.cxx`, on the heap |
| `WriteModel.dfy` | the buffered socket writer of `src/sock.cxx` as a state machine, and its theorems |
| `WriterSpec.dfy` | whole calls and sessions of the writer, with callbacks that write again, as runs of the machine |
| `SocketWriter.dfy` | the same writer on the heap, refining these |
| `ReadBuffer.dfy`, `Connect.dfy` | the read buffer and the outgoing connect of `src/sock.cxx` |
| `Tracer.dfy`, `WaitStatus.dfy` | the ptrace loop and judging session of `oj/iojxd.lua`, and raw wait statuses |
| `Protocol.dfy` | the `$` commands, authentication and chunk execution of `oj/iojxd.lua` |
| `Lifetimes.dfy` | self-references of timers and child watchers in `src/luafoundx.cxx` |
| `InactivityTimer.dfy` | the lazily re-armed timeout of `src/timer.cxx` |

`dafny verify dfyconfig.toml` checks everything.

## How it is built

Code that updates fields in place is a class whose methods are proved against functions on
values. Those functions are the steps of a small state machine, and the main theorems are about
every finite run of the machine. The kernel, the clock, libev, the Lua collector and the results
of chunks are arbitrary inputs: an oracle of write results, a trace of wait statuses, an
arbitrary choice of the next step.

In the writer every submitted byte is tagged with its message and position, so order claims
are about origins and not about equal bytes. `SocketWriter.Serve` ties the two halves together:
a whole session of the heap code, with nested callbacks and any kernel, takes the listed steps
of the machine, submits exactly what the program and its callbacks write, and the theorems about
conservation, order, loss, callbacks and delivery hold of it.
`Drive` does the same for the classes of `Protocol`, `Lifetimes`, `InactivityTimer` and `Connect`.

What a step function computes is also stated without it, on the inputs alone: which replies,
environments and open connections the sequence of steps leaves, which verdict and requests the raw
statuses of a trace give, what each queue operation sees of the stream of values put, which read
is which delivery, and how often each watcher's event, callback and reference occurs.

Every lemma has automatic induction switched off: the proofs are the bodies.

## What the code does that a reader might not expect

Each is proved, with the condition under which it does not happen.

- The direct write is tried while older bytes are queued, so it can overtake them
  (`WriteModel.Overtaking`). Wire order is submission order exactly when every attempt is
  orderly (`WriteModel.WireOrderIffOrderly`).
- The result of `write` is stored in a `size_t`, so a failed or would-block write counts as
  complete: its bytes are dropped and its callback runs (`WriteModel.WouldBlockDrops`). A callback
  runs after all of its message was accepted exactly when none of it was dropped
  (`WriteModel.CallbacksOverRuns`), and bytes are
  dropped exactly when an attempt on a non-empty buffer fails (`WriteModel.LossIffError`). Both
  conditions are stated for whole sessions of the heap code too (`WriterSpec.SessionGuarantees`).
- A killed compiler has exit code zero and the session goes on to run the program
  (`Tracer.KilledCompilerIsNoError`); a session ends in CE exactly on a non-zero exit code.
- An offending program whose kill is not delivered can be accepted
  (`Tracer.UnobeyedKillIsAccepted`). A run with an offence gets RE naming the last one exactly when
  the child dies by SIGKILL, and AC or WA exactly when it exits (`Tracer.OffenderVerdict`).
- `exit_cause` is 0 for a status that is neither exited, signaled nor stopped; the tracer
  ignores such a status (`WaitStatus.GetStatus`, `WaitStatus.KindsAreExclusive`).
- A chunk that raises an error value without text gets no reply (`Protocol.UnansweredChunk`); a
  read is answered exactly if it is no unknown command and no such chunk (`Protocol.OneReplyPerRead`).
- Starting a timer again while its event is pending or its callback runs leaves an armed watcher
  without a self-reference (`Lifetimes.RestartWhilePending`, `Lifetimes.ChildRestartInCallback`,
  `Lifetimes.UsedAfterRestart`); the protocol is safe exactly without such starts
  (`Lifetimes.SafeIffNoOverlap`). The free function's assertion notices it exactly if a timer counts as
  active or a child's event is outstanding (`Lifetimes.DestructionIsJudged`).
- After an early expiry the libev timer has a repeat, so a timeout callback runs again and the
  timer cannot be stopped (`InactivityTimer.FiresTwice`). Some run fires again before the next start
  exactly if there is a repeat (`InactivityTimer.FiresAgainIffRepeating`).
- A timer can count as active with no event to come: after an early expiry at the very deadline
  (`InactivityTimer.LostTimer`), an explicit re-arm without a repeat (`InactivityTimer.LostByAgain`) or a
  timeout without a callback (`InactivityTimer.LostWithoutCallback`). Flag and watcher agree
  throughout a run exactly when none of these steps, and no timeout of a repeating timer, occurs
  (`InactivityTimer.AgreesIffNoBreaks`).
- A stop does not forget the repeat: a stopped timer that is re-armed by hand fires again exactly if
  it has one and a callback (`InactivityTimer.StopUndoneIffRepeating`).
- Starting the timeout timer again while its expiry is pending allows an early expiry without
  activity (`InactivityTimer.EarlyWithoutActivity`) or a second callback
  (`InactivityTimer.TwoCallbacksWithoutEarly`); for every interval, both bounds hold of a start,
  whatever follows, exactly when no expiry is pending (`InactivityTimer.BoundedIffNotPending`).
- The repository's own description of the result file gives a runtime error no further text; the code
  appends the name of an invalid system call, and the model follows the code.

## Model

| member | source | states |
|---|---|---|
| CyclicQueue.Queue.constructor | src/util.cxx:19-30 | a new queue is empty: the placeholder is its own successor and the rear |
| CyclicQueue.Queue.Enqueue | src/util.cxx:43-53 | appends the value, keeps one simple cycle, and writes no node but the old rear |
| CyclicQueue.Queue.Dequeue | src/util.cxx:55-69 | on a non-empty queue returns and removes the head, frees its node, and writes no node but the placeholder |
| CyclicQueue.Queue.Front | src/util.cxx:71-77 | reads the head of a non-empty queue |
| CyclicQueue.Queue.Empty | src/util.cxx:79-84 | true exactly when the sequence is empty |
| CyclicQueue.Queue.Free | src/util.cxx:32-41 | terminates, and every node ever linked, the placeholder and the entry have each been freed exactly once |
| CyclicQueue.RearFollow | src/util.cxx:43-84 | following `next` from the rear visits placeholder, front, and so on, and returns to the rear after exactly as many hops as there are live nodes |
| CyclicQueue.RunIsFifo | src/util.cxx:43-69 | over every legal run, values taken then values left are values there then values put |
| CyclicQueue.SeenIsStream | src/util.cxx:55-84 | in every legal run each operation sees, of the values there and put so far, the one after those taken so far, and an empty queue exactly if all of them were taken |
| CyclicQueue.Replay | src/util.cxx:19-84 | every legal run of operations on the linked queue sees and leaves what the plain sequence does, and sees the stream of values put |
| WriteModel.RunInv | src/sock.cxx:138-170 | every reachable state keeps queued records non-empty, in submission order, with their own callback, and the flags consistent |
| WriteModel.RunConserves | src/sock.cxx:138-170 | in every run each message is its accepted bytes, then its queued bytes, then its dropped bytes, whatever the short writes and errors |
| WriteModel.EveryByteAccountedFor | src/sock.cxx:349-376 | the same for a new connection in plain bytes |
| WriteModel.LossIffError | src/sock.cxx:140-145 | bytes are dropped exactly when an attempt on a non-empty buffer returns an error |
| WriteModel.WireGrows | src/sock.cxx:140-140 | in every run the wire grows, at its end, by exactly the number of bytes the kernel says it took |
| WriteModel.RunOrder | src/sock.cxx:138-170 | from any ordered state, a run stays ordered exactly when every attempt is orderly |
| WriteModel.WireOrderIffOrderly | src/sock.cxx:138-170 | for a new connection, wire then queue is the submitted stream, origin by origin, exactly when no attempt fails on data or overtakes a waiting record |
| WriteModel.OrderlyStream | src/sock.cxx:349-376 | an orderly run puts the concatenation of the messages on wire then queue, in plain bytes |
| WriteModel.Overtaking | src/sock.cxx:140-152 | a run in which a later message's byte reaches the wire before an earlier one's |
| WriteModel.WouldBlockDrops | src/sock.cxx:140-145 | an error return drops the message, queues nothing and runs its callback |
| WriteModel.BoundaryFlagsAgree | src/sock.cxx:162-166 | at every event-loop boundary of every run, `write_launched`, watcher started and queue non-empty are equivalent |
| WriteModel.RunCallbacks | src/sock.cxx:359-362 | every step keeps: callbacks ran exactly for the finished messages that have one, none twice, queued ones in queue order |
| WriteModel.AcceptedBeforeCallback | src/sock.cxx:142-145 | a callback that ran has all bytes of its message on the wire, in order, if and only if none of them was dropped |
| WriteModel.CallbacksOverRuns | src/sock.cxx:142-145 | for every run of a new connection the same, only when nothing of the message is left to send; its bytes are then all accepted if and only if none was dropped, hence always in a run without failing attempts; and all have run when the queue is empty |
| WriterSpec.WriteSpecIsRun | src/sock.cxx:138-170 | a whole write call, with the writes its callback issues, is the listed run of the machine, its attempts getting the kernel's next answers one each and in order |
| WriterSpec.WriteIssues | src/sock.cxx:138-145 | a call of write submits its message, and beyond it exactly what the callbacks that ran write, as a multiset, each in order and after its parent |
| WriterSpec.WriteSubmits | src/sock.cxx:138-145 | a call of write asks the kernel and submits its message first, and nothing else if its callback does not write |
| WriterSpec.DrainSpecIsRun | src/sock.cxx:349-376 | any number of turns of the drain, with callbacks that write, is the listed run, with the kernel's next answers |
| WriterSpec.DrainIssues | src/sock.cxx:354-372 | the drain submits exactly what the callbacks that ran in it write, each in order and after its parent |
| WriterSpec.DrainEnds | src/sock.cxx:354-372 | callbacks that write included: if no write is answered 0 while the queue's bytes and its callbacks' messages last, the drain ends within that many turns and writes, with an empty queue; without errors nothing is dropped, and if callbacks do not write the backlog goes to the wire as it stands |
| WriterSpec.SessionIsRun | src/sock.cxx:138-170 | every session of writes and writable events is a run of the machine by the listed steps, with the kernel's answers in order |
| WriterSpec.SessionIssues | src/sock.cxx:138-376 | a session submits exactly the program's messages of the events it handles, in order, and what the callbacks that ran write; it handles all events unless the write callback has not returned |
| WriterSpec.SilentSession | src/sock.cxx:138-170 | without callbacks that write, the messages submitted in a session that has returned are those the program wrote, in order |
| WriterSpec.PromptDelivers | src/sock.cxx:349-376 | with a kernel that always takes something, any session that ends in a writable event followed long enough delivers every message whole, those of callbacks included, runs every callback, empties the queue and stops the watcher |
| WriterSpec.SessionGuarantees | src/sock.cxx:138-170 | after every session: messages conserved, callbacks once, in order and after the bytes of their message were accepted unless dropped, the stream in order if and only if every attempt was orderly, nothing dropped if and only if none failed on data, which a kernel without errors ensures |
| WriterSpec.OrderlySessionStream | src/sock.cxx:349-376 | an orderly session puts the concatenation of its messages on wire then queue |
| WriterSpec.IdleWriterIsOrderly | src/sock.cxx:138-170 | with a kernel that never fails, a session whose writes, nested ones included, are all made on an empty queue is orderly |
| SocketWriter.ConnCtx.constructor | src/sock.cxx:186-211 | a new context is the initial state with an empty linked queue and a stopped watcher |
| SocketWriter.ConnCtx.SysWrite | src/sock.cxx:140-140 | the kernel fails or takes a prefix of what it is offered, which is appended to the wire |
| SocketWriter.ConnCtx.Buffer | src/sock.cxx:146-168 | the unaccepted rest is copied into a record that joins the linked queue, and the watcher is started unless launched |
| SocketWriter.ConnCtx.Write | src/sock.cxx:138-170 | the heap code does what the machine says, and returns whether the direct attempt counts as complete |
| SocketWriter.ConnCtx.RunCallback | src/sock.cxx:142-144 | a callback's writes take effect in order, in place |
| SocketWriter.ConnCtx.Advance | src/sock.cxx:366-371 | the front record is advanced where it stands and no other record changes |
| SocketWriter.ConnCtx.Retired | src/sock.cxx:359-362 | a finished record leaves the linked queue before its callback runs, and the writes of that callback take effect on the rest |
| SocketWriter.ConnCtx.Turn | src/sock.cxx:354-372 | one loop turn does what the machine says, callback included |
| SocketWriter.ConnCtx.DrainLoop | src/sock.cxx:354-372 | any number of turns of the loop equals as many machine turns, and the loop is left exactly on an empty queue |
| SocketWriter.ConnCtx.WriteCb | src/sock.cxx:349-376 | the write callback drains as the machine does, returns exactly when the queue is empty, and then stops the watcher |
| SocketWriter.Serve | src/sock.cxx:138-376 | over every session and kernel the bytes on the wire and the launch flag of the heap code are the machine's, with conservation, callbacks in order and after their bytes, and the exact conditions for stream order and for loss; what is submitted is what the program and its callbacks write, it is all delivered if served promptly, and an orderly stream is then the program's own |
| ReadBuffer.Buffer.constructor | src/sock.cxx:206-206 | a new context has a buffer of 4096 + 1 bytes, or none if allocation failed |
| ReadBuffer.Buffer.SetLen | src/sock.cxx:172-184 | the buffer has one byte more than its size; a failed allocation changes nothing |
| ReadBuffer.Buffer.Fill | src/sock.cxx:313-315 | the buffer holds what fits of the data, then zeros to its end |
| ReadBuffer.Serve | src/sock.cxx:308-332 | over any resizes and reads the callback gets exactly the specified deliveries: one for each read with data, in order, up to the first end of file or read without a buffer |
| ReadBuffer.DeliveriesAreTerminated | src/sock.cxx:314-318 | every delivery of every run is that of a read at some step: its buffer has the size in force there plus one, the data that fits at its front, and zeros after it |
| ReadBuffer.EachReadIsDelivered | src/sock.cxx:308-332 | in every run each read with data before the operations stop is delivered, in order, with the size in force at it, and nothing is delivered after that |
| Connect.Attempt.constructor | src/sock.cxx:93-127 | the watcher starts, or the failure callback runs at once |
| Connect.Attempt.OnEvent | src/sock.cxx:276-306 | a writable event runs one callback, frees the arguments and stops the watcher; any other event does nothing |
| Connect.Drive | src/luafound.cxx:102-125 | over every run exactly the expected callbacks are made and the script's block is released once for each |
| Connect.CalledOnceIff | src/sock.cxx:118-126 | one callback runs exactly when connect fails at once or a writable event comes, and never two; it is the success callback exactly if the socket has no error at the first writable event |
| WaitStatus.GetStatus | src/childprocess.cxx:99-119 | the overwriting ifs give the tracer's classification whenever there is one, and 0 otherwise; in bits, 1 exactly for a low 7-bit value from 1 to 126 and 2 exactly for a low byte of 127 |
| WaitStatus.KindsAreExclusive | src/childprocess.cxx:111-116 | exited, signaled and stopped are pairwise exclusive for every raw status; none holds exactly when the low byte is 0xff |
| WaitStatus.Encodings | src/luafound.cxx:227-243 | statuses built from an exit code, a signal with or without a core dump, or a stop signal are classified and read back as such |
| Tracer.Inside | lib/lutil.lua:5-11 | true exactly when some element compares equal |
| Tracer.EvaluateTracer | oj/iojxd.lua:96-173 | for every trace the loop's requests and reports are those of a loop-free description by first final event, stop counts and last offence |
| Tracer.OneOutcome | oj/iojxd.lua:96-173 | that description admits one outcome per trace |
| Tracer.VerdictCount | oj/iojxd.lua:125-149 | at most one verdict; one exactly when the run ended, the file opened and the child did not die by a signal other than SEGV, PROF or KILL |
| Tracer.VerdictTable | oj/iojxd.lua:107-149 | the verdict, figures and log on raw statuses: AC or WA on exit by the diff, RE for 11, TLE for 27 and for a stop by 27, for 9 MLE without an offence and else RE naming the last one, nothing for any other signal, with or without a core dump |
| Tracer.RequestTable | oj/iojxd.lua:150-171 | each other stop gets one request, in order, a kill exactly if it is in a call off the list and not the first to stop; without a final event the tracer waits; if the file does not open it raises exactly where it has a verdict |
| Tracer.ExemptionUsedOnce | oj/iojxd.lua:156-168 | of two stops off the whitelist the later is killed: the first-stop exemption is used once at most |
| Tracer.JudgedBy | oj/iojxd.lua:107-149 | the verdict is that of the final event and the last offence before it |
| Tracer.OffenderVerdict | oj/iojxd.lua:107-141 | an ended run with an offence gets RE naming the last one if and only if the child died by SIGKILL, AC or WA if and only if it exited, and never MLE |
| Tracer.OffenceIsReported | oj/iojxd.lua:134-138 | each handled offence is the one named if and only if the child died by SIGKILL and the last offence was by the same call |
| Tracer.CleanVerdict | oj/iojxd.lua:112-140 | MLE is given only to runs without an offence; a run with one gets AC or WA if and only if the child exited |
| Tracer.ObeyedKillIsReported | oj/iojxd.lua:160-164 | if every kill is followed by death by SIGKILL, a handled offence ends the run at the next event with RE naming the call |
| Tracer.UnobeyedKillIsAccepted | oj/iojxd.lua:107-124 | a trace with an offence, a kill and an exit that is accepted |
| Tracer.Judge | oj/iojxd.lua:195-230 | a compiler with a non-zero exit code ends the session with CE, otherwise the program is run and judged |
| Tracer.SessionVerdicts | oj/iojxd.lua:215-229 | at most one verdict per session; CE exactly on a non-zero compiler exit code, with zero figures, the compiler's log and no evaluation; in every other session the program's events are judged |
| Tracer.KilledCompilerIsNoError | oj/iojxd.lua:223-227 | a compiler killed by any signal is followed by evaluation |
| Protocol.CString | src/luafoundx.cxx:220-225 | data reaches the script as the bytes before the first NUL |
| Protocol.Server.ExecuteCmd | oj/iojxd.lua:234-252 | AUTH replies and installs a fresh environment, EXIT replies, closes and stops listening, anything else raises |
| Protocol.Server.OnReadHandler | oj/iojxd.lua:261-288 | the handler does what the machine says and raises exactly when there is no reply |
| Protocol.Isolated | oj/iojxd.lua:261-288 | under every interleaving a connection ends up as if it had been served alone |
| Protocol.EnvironmentIsOwn | oj/iojxd.lua:238-242 | at every point a connection's environment holds exactly the chunks run on it since its last AUTH |
| Protocol.EnvOfRun | oj/iojxd.lua:238-280 | that environment is there exactly after an AUTH on the connection, and holds one for one and in order the data of the reads since the last AUTH that are no command and load |
| Protocol.ExecutionNeedsAuth | oj/iojxd.lua:269-280 | in every run a chunk is executed only after an AUTH on the same connection |
| Protocol.OneReplyPerRead | oj/iojxd.lua:261-288 | a read adds one reply if it is answered and none otherwise, and changes no other connection |
| Protocol.OneRead | oj/iojxd.lua:261-288 | in plain bytes: the reply is "1" exactly for AUTH, EXIT and an authenticated chunk that succeeds, else "0", a new line and the loader's message, the error text or the refusal; the connection is closed exactly by EXIT and by data that is no command before AUTH |
| Protocol.ReadInRun | oj/iojxd.lua:261-288 | the same for every read of every run, where authenticated means that an AUTH was sent on the connection before |
| Protocol.RepliesMatchReads | oj/iojxd.lua:261-288 | over every run a connection has as many replies as answered reads |
| Protocol.RepliesOfRun | oj/iojxd.lua:261-288 | in every run what a connection was sent is, one for one and in order, the right reply to each of its reads that gets one |
| Protocol.StateOfRun | oj/iojxd.lua:256-288 | in every run the server listens until an EXIT, has the connections it accepted, and a connection is open until an end of file, an EXIT or a refused read of its own |
| Protocol.ExitStopsListening | oj/iojxd.lua:243-248 | after an EXIT no connection is ever added |
| Protocol.UnansweredChunk | oj/iojxd.lua:276-279 | a run from the start in which a chunk failing without text is executed and gets no reply |
| Protocol.Server.Handle | oj/iojxd.lua:256-288 | accepting, reading and end of file do what the machine says |
| Protocol.Drive | oj/iojxd.lua:256-288 | the handlers over any interleaving are the machine's run: every connection as if served alone, with the chunks since its last AUTH, the right reply to each read, open until a step closes it, and a server that listens until an EXIT |
| Lifetimes.Watched.TakeSelf | src/luafoundx.cxx:26-28 | takes a counted reference unless one is held |
| Lifetimes.Watched.DropSelf | src/luafoundx.cxx:30-36 | drops the held reference once, destroying the object if it was the last |
| Lifetimes.Watched.DropRef | src/timer.cxx:36-43 | the last reference destroys the object and evaluates the free function's assertion |
| Lifetimes.Watched.StartWatching | src/luafoundx.cxx:53-61 | takes the self-reference and arms the watcher |
| Lifetimes.Watched.EnterCallback | src/timer.cxx:85-93 | a timer becomes inactive and hands out references; a child watcher is stopped |
| Lifetimes.Watched.LeaveCallback | src/luafoundx.cxx:55-60 | the callback's temporary and then the self-reference are dropped |
| Lifetimes.NoOverlapIsSafe | src/luafoundx.cxx:22-65 | without overlapping starts every run keeps: an outstanding event means a live object with a self-reference, each is dropped once, the free-time assertions hold, and the object lives exactly while the script holds it, an event is outstanding or its callback runs |
| Lifetimes.NewInv | src/luafoundx.cxx:50-51 | a new object, held by its script alone, satisfies the invariant that such runs keep |
| Lifetimes.SafeIffNoOverlap | src/luafoundx.cxx:88-103 | for every settled run of a timer or child watcher, safety throughout is equivalent to the absence of overlapping starts |
| Lifetimes.EventsAreBalanced | src/childprocess.cxx:44-53 | in every run of a timer or child watcher, overlapping starts or not, each expiry is pending until its callback is entered and each callback runs until it is left |
| Lifetimes.ScriptReferences | src/luafoundx.cxx:53-61 | in every run the script's references are those it copied and was handed by timer callbacks, less those released |
| Lifetimes.ReferencesFollowEvents | src/luafoundx.cxx:26-36 | without overlapping starts, in every run one self-reference is taken by each start that finds no event under way and one dropped by each callback that ends |
| Lifetimes.ArmedFromStart | src/timer.cxx:45-55 | in every run the watcher is armed exactly from a start to the expiry of a timer or the callback of a child |
| Lifetimes.DestructionIsJudged | src/timer.cxx:36-43 | in every run, destruction is marked dangling exactly if an event is outstanding, and an assertion fails exactly if a timer counts as active or a child's event is outstanding |
| Lifetimes.RestartWhilePending | src/timer.cxx:36-55 | a timer restarted while pending is freed while armed and its assertion does not notice |
| Lifetimes.ChildRestartInCallback | src/childprocess.cxx:44-53 | a child watcher started again by its own callback is freed while armed and the assertion fails |
| Lifetimes.UsedAfterRestart | src/luafoundx.cxx:53-61 | a timer restarted while pending is freed by the end of its second callback, which then uses it |
| Lifetimes.Drive | src/luafoundx.cxx:22-103 | the code over any run of script, collector and event loop is the machine's run; every dispatched callback is running or has ended, and the watcher is armed exactly from a start to its end; without overlapping starts nothing fails, the object lives exactly while needed and each ended callback dropped one reference, and a settled run is safe exactly without them |
| InactivityTimer.Timer.StartTimer | src/timer.cxx:45-55 | arms for now plus interval without a repeat; the last activity is not touched |
| InactivityTimer.Timer.StopTimer | src/timer.cxx:57-63 | stops the watcher of an active timer |
| InactivityTimer.Timer.TickTimer | src/timer.cxx:72-76 | records the present as the last activity |
| InactivityTimer.Timer.AgainTimer | src/timer.cxx:78-83 | re-arms by the repeat, or stops the watcher if there is none, and marks the timer active |
| InactivityTimer.Timer.TimeoutCb | src/timer.cxx:95-112 | past the deadline the callback runs, otherwise the watcher is re-armed for what is left |
| InactivityTimer.EarlyExpiriesAmortised | src/timer.cxx:95-112 | in every run early expiries since a start never outnumber the activity since it, but for one if that start found an expiry pending |
| InactivityTimer.EarlyWithoutActivity | src/timer.cxx:45-55 | a run with a start on a pending expiry that has an early expiry and no activity |
| InactivityTimer.TwoCallbacksWithoutEarly | src/timer.cxx:45-55 | a run with a start on a pending expiry, two callbacks and no early expiry |
| InactivityTimer.BoundedIffNotPending | src/timer.cxx:45-55 | for every interval, a start keeps both bounds whatever follows if and only if no expiry is pending at the call |
| InactivityTimer.PendingBreaks | src/timer.cxx:45-55 | a start of any interval on a pending expiry has a continuation that breaks a bound |
| InactivityTimer.EarlyRearm | src/timer.cxx:108-111 | an early expiry re-arms for exactly last activity plus interval, except that a deadline equal to the present leaves the watcher stopped |
| InactivityTimer.RearmsFromLastTick | src/timer.cxx:108-111 | on the trace: an early expiry before its deadline re-arms for exactly the time of the last tick plus the interval |
| InactivityTimer.LostTimer | src/timer.cxx:108-111 | a run from a new timer, with an expiry at the very deadline, that ends active with nothing armed, pending or repeating |
| InactivityTimer.LostByAgain | src/timer.cxx:78-83 | the same end by an explicit re-arm of a timer without a repeat |
| InactivityTimer.LostWithoutCallback | src/timer.cxx:103-107 | the same end by a timeout without a callback |
| InactivityTimer.AgreesIffNoBreaks | src/timer.cxx:45-112 | in every run the active flag and an event to come agree throughout if and only if none of the listed steps occurs: a re-arm without a repeat, a timeout of a repeating watcher or without a callback, an expiry at the deadline |
| InactivityTimer.TickRemembered | src/timer.cxx:72-76 | in every run the recorded last activity is never before any earlier tick |
| InactivityTimer.LastTick | src/timer.cxx:72-76 | in every run the recorded last activity is exactly the time of the last tick |
| InactivityTimer.NoFalseTimeout | src/timer.cxx:101-106 | whenever the callback runs, every tick of the run so far lies more than an interval in the past |
| InactivityTimer.NoLateTimeout | src/timer.cxx:95-112 | in every run from a start, until the callback or an explicit re-arm, the target is at most an interval after the later of start and last activity, and once that is past the timer is due |
| InactivityTimer.StopIsFinal | src/timer.cxx:57-63 | after a stop of an active timer, until a start or an explicit re-arm, nothing is armed, pending, expiring or fired and the flag stays clear |
| InactivityTimer.StopUndoneIffRepeating | src/timer.cxx:57-83 | some run without a start fires after a stop if and only if there is a repeat and a callback |
| InactivityTimer.StartWaits | src/timer.cxx:45-55 | a started timer may expire exactly once its interval has passed since the start, whatever activity there is |
| InactivityTimer.AgainWaits | src/timer.cxx:78-83 | a timer re-armed by hand may expire exactly once its repeat has passed since then |
| InactivityTimer.RearmWaits | src/timer.cxx:108-111 | after an early expiry it may expire exactly once an interval has passed since the last activity known then |
| InactivityTimer.RepeatWaits | src/timer.cxx:95-112 | a repeating timer that fired may expire again exactly once its repeat has passed since its target, at a later time |
| InactivityTimer.FiresOnceWithoutEarly | src/timer.cxx:95-112 | in every run a start without early expiries leads to one callback at most, or two if it found an expiry pending |
| InactivityTimer.StoppedStaysSilent | src/timer.cxx:78-112 | a stopped timer without a repeat runs no callback before the next start, whatever happens |
| InactivityTimer.RepeatingFiresAgain | src/timer.cxx:57-112 | with a repeat a callback leaves the watcher armed, it may not be stopped, and a run without activity fires again |
| InactivityTimer.FiresAgainIffRepeating | src/timer.cxx:57-112 | after a callback on an expiry of its own start, some run fires again before the next start if and only if there is a repeat |
| InactivityTimer.FiresTwice | src/timer.cxx:95-112 | a run from a new timer with one start, one tick and two callbacks |
| InactivityTimer.Drive | src/timer.cxx:45-112 | the code over any run of calls, clock and event loop is the machine's run, keeps both bounds, its flag agrees with the watcher throughout exactly when none of the breaking steps occurs, and after a last stop it is neither waiting nor active |

## Left out

- Dequeue on an empty queue: the source does not guard it and frees the placeholder; callers test for emptiness first, and the model requires it.
- Memory of write records after their callback, and the arguments of queued callbacks: line 365 of src/sock.cxx frees the connection context and `cb_args` is never stored, so nothing is claimed about either.
- Closing a connection while bytes are queued: only the effect of failing writes is modelled.
- A drain that never ends, because the kernel keeps accepting nothing: the model covers every finite number of its turns.
- The layout of the result file and the wording of its messages (a message is known by the call it names), and the running of `diff`: the size of its output is one boolean input.
- Failing `fork`, `exec` and reads of the compiler log, and how the figures are computed from `rusage`.
- Passive reading (`passive_read`) and `ixfd_commonsock_read`.
- The error comparison of `getsockopt` in the connect callback: the socket's pending error is the input.
- Starting a timeout timer whose watcher is armed: libev forbids it and leaves the target undefined. The lifetime model allows it, as the code does, since it needs only that the watcher stays armed.
- Different clocks for `ev_now` and the timers: the timer model has one.
- `ixlbx_socket_context` and `ixlbx_tcp_base` reference counting: the first depends on when the collector runs.
- A child watcher's raw pointer kept by a script after its callback.
- The end of the server after an unknown command or a failure without text: the Lua error leaves the handler and no handler for it is shown around the event loop; the model lets the server go on, and so allows steps that may never come.
- Listening sockets, coroutines, Lua bindings, configuration parsing, system call tables, resource limits and platform start-up: they would only add easy members.

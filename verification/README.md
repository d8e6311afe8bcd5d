# A verified model of the Unix network programs

The repository is a collection of small Unix programs. This project models the ones that hold real
protocols or arithmetic and proves what they are for. Each module stands for one program:

- `SemKernel`, `SemLibrary`, `SemLibraryProofs`, `SemLibraryClaims`, `SemOpeners`, `SemCounter`, `SemPrints`,
  `SemRuns`, `SemCalls`, `SemEnds`:
  the semaphore library of `9_semaphores` (value, process counter, lock) over a kernel with atomic `semop`
  arrays and SEM_UNDO, and the program that counts in a file under it. `SeqFile` is that file: its text,
  its scan, its overwrite without truncation.
- `MultiBuffer`, `MultiBufferProofs`, `MultiBufferClaims`, `MultiBufferRing`: the file transfer of
  `11_multi_buffer` over a ring of any number (two or more) of buffers, with handshake, priming, error
  path, end marker and the wait-for-zero loop that mends the undo starvation.
- `Inetd`, `InetdWindow`, `InetdServes`: the dispatcher's main loop, interrupted anywhere by its SIGCHLD handler, for any number of
  services.
- `Strtol`, `StrtolSum`, `StrtolClaims`, `StrtolRanges`: `my_strtol` with a `long` of 64 bits that wraps around.
- `LockFile`, `LockProgress`: the link, exclusive-open and creat locks around the counting loop.
- `Framing`, `FramingPipe`, `FramingEnds`: length-prefixed messages over a FIFO, and the whole exchange over two bounded
  ones. `LineIo`, `Echo`: `readline`, `writen` and the line echo over two bounded channels. `Numerals`,
  `Sequences`, `Options` are shared.

## How to read it

Programs that run concurrently are state machines: a state, a function for the next call of one
process, and `Exec`, which plays an arbitrary list of turns. One turn is one system call or one
statement on shared memory; a turn may also kill a process. The claims quantify over every list of
turns, that is, over every interleaving and every crash. Programs and loops that run alone are
methods on classes or arrays, proved against a function, and the claims are lemmas about that function.
The semaphore library and the transfer exist in both forms: `SemCalls` and `MultiBufferRing` change the set
and the ring in place, one whole call or loop pass at a time.

| machine | steps defined by | source |
|---|---|---|
| semaphore library and its user | `SemLibrary.Run`, `SemLibrary.Die`, `SemLibrary.Take` | `9_semaphores/semaphore.c` 150-413, `9_semaphores/main.c` 25-62 |
| multi-buffer pair | `MultiBuffer.ServerRun`, `MultiBuffer.ClientRun`, the two exits | `11_multi_buffer/server.c` 77-173, `11_multi_buffer/client.c` 123-168 |
| inetd | `Inetd.Statement`, `Inetd.Take`, `Inetd.Handle` | `12.inetd/inetd.c` 279-531 |
| lock files | `LockFile.Run` | `1_file_record_locking/lock.c` 57-172, `file_record.c` 28-58 |
| message exchange | `FramingPipe.ServerRun`, `FramingPipe.ClientRun` | `6_stream_messages/ipc_server.c` 35-90, `ipc_client.c` 24-59, `msg.c` 19-73 |
| echo | `Echo.ClientRun`, `Echo.ServerRun` | `1.tcp/str_cli.c` 8-35, `1.tcp/str_echo.c` 6-25 |

Histories (what was printed, sent, lost, how many wrote) are fields of the state that no step looks at;
the claims are stated over them.

Where the code falls short of what one would expect of it, the code is kept, a concrete input or run
shows the failure, and a lemma says exactly when it happens:

| what fails | shown by | exactly when |
|---|---|---|
| an opener that takes no lock loses its set: those who have it open hold an id the key does not name | `SemRuns.OpenerLosesItsSet` | `SemOpeners.SameIdExactly` |
| such an opener and a newcomer are both in the critical section, on two sets | `SemRuns.TwoInside` | `SemOpeners.InsideExactly`, `SemOpeners.ExclusionUnlessHitInside`, `SemRuns.HitInsideBreaksExclusion` |
| and one of their additions is lost | `SemRuns.LostUpdate` | `SemCounter.NothingLostExactly` |
| an opener sleeps and nobody is left to wake it | `SemRuns.OpenerSleepsAlone` | `SemOpeners.DeadlockExactly` |
| a printed sequence number repeats | `SemRuns.PrintedTwice` | `SemPrints.RepeatsExactlyWhenStopped`, `SemPrints.DistinctExactly` |
| the un-truncated overwrite leaves a stale byte | `SeqFile.OverwriteShrinkingKeepsTail` | `SeqFile.OverwriteCanonical`, `SeqFile.StepCanonical` |
| a server that exits too early starves the client | `MultiBufferClaims.ReturnIsTooEarly` | `MultiBufferClaims.ExitStarvesUnlessPastLast` |
| the server's last loop never ends | `MultiBufferClaims.SpinsForever` | `MultiBufferClaims.StuckExactlyWhenClientGone` |
| inetd does not watch a socket it should | `Inetd.WindowLosesSocket` | `InetdWindow.ExactExactlyWhenCalm` |
| a process asleep in sem_create dies when the set is removed, though it could have started again | `SemRuns.SleeperDies` | `SemEnds.CreatorsEndExactly`, `SemEnds.LockCall` |
| `my_strtol` takes punctuation for digits | `StrtolRanges.ThreePointOneFour` | `StrtolRanges.ScanByRanges`, `StrtolRanges.PunctuationIsRange` |
| `my_strtol` refuses a lone zero | `StrtolClaims.LoneZeros` | `StrtolClaims.AgreesWithStandard` |
| `my_strtol` misses an overflow | `StrtolClaims.HexTwo64` | `StrtolSum.SumIsResidues`, `StrtolClaims.AgreesWithStandard` |
| `my_strtol` leaves endptr elsewhere | `StrtolClaims.EndMisplaced` | `StrtolClaims.EndAgreesWithStandard` |
| `my_strtol` reads through a null endptr | `StrtolClaims.NullEndptrStops` | `StrtolClaims.NullEndptrReturns` |
| `readline` counts one byte too many | `LineIo.CountTooHigh` | `LineIo.ReadLineCount` |
| a read of a message comes up short | `FramingPipe.TornOnSmallPipe` | `FramingPipe.SafeExactlyWhenFramesFit` |

A removal hits when its process is about to call IPC_RMID and the process counter is not the BIGCOUNT any more
that sem_close found (`SemLibraryClaims.Hits`); it hits somebody inside when member [0] is not back at initval
(`SemOpeners.HitsInside`). `Unhit` and `Exclusive` runs are those of users who all enter by `sem_create`, where
neither ever happens, and all others without such a removal. `SemLibraryClaims.NoDeadlock` asks for
`initval >= 1` and for users who enter by `sem_create`; what else can happen is `SemOpeners.DeadlockExactly`.
The bound of fewer than BIGCOUNT processes is the one the counter itself has.

## Model

| member | source | states |
|---|---|---|
| `SemKernel.SemopConserves` | Chapter 3 - Interprocess Communication/9_semaphores/pitfalls/pitfall_2/lock_unlock_2.c:6-9 | The undo law: for every semop array whose changes all carry SEM_UNDO, each member's value plus the caller's adjustment is the same after the call as before it |
| `SemKernel.SemopNonNegative` | Chapter 3 - Interprocess Communication/9_semaphores/semaphore.c:28-55 | No semop array, taken as a whole, brings a member below zero |
| `SemKernel.SemopAdds` | Chapter 3 - Interprocess Communication/9_semaphores/semaphore.c:28-55 | A semop that goes through changes each member by the sum of its operations and the adjustment by the opposite of those with SEM_UNDO alone |
| `SemKernel.GoesThroughExactly` | Chapter 3 - Interprocess Communication/9_semaphores/semaphore.c:28-55 | And it goes through if and only if each operation passes where its predecessors have brought its member: 0 for a wait-for-zero, not below 0 for a change |
| `SemKernel.SemSet.Op` | Chapter 3 - Interprocess Communication/9_semaphores/semaphore.c:391-413 | The kernel's loop over a semop array, in place: all operations commit in order or nothing changes at all, only the caller's adjustments move, and with SEM_UNDO throughout values plus all adjustments are conserved |
| `SemKernel.SemSet.SetVal` | Chapter 3 - Interprocess Communication/9_semaphores/semaphore.c:220-233 | SETVAL in place: sets the one member and clears every process's adjustment for it, and no other |
| `SemKernel.SemSet.Exit` | Chapter 3 - Interprocess Communication/9_semaphores/pitfalls/pitfall_2/lock_unlock_2.c:6-9 | Exit in place: unless a value would have to go below zero, values plus the adjustments of all processes are the same after a process has gone as before |
| `SemLibraryProofs.TakeInv` | Chapter 3 - Interprocess Communication/9_semaphores/semaphore.c:150-413 | One step of any process, or its death, keeps the global invariant: values balance adjustments, each process is owed exactly what its place in the code says, and the holder of [2] holds the set the key names (sem_open users included) |
| `SemLibraryClaims.Conservation` | Chapter 3 - Interprocess Communication/9_semaphores/semaphore.c:28-55 | In every reachable state of an initialised set, value plus the sum of all adjustments is initval for [0], BIGCOUNT for [1] and 0 for [2]; [2] balances before initialisation too |
| `SemLibraryClaims.DeathFrees` | Chapter 3 - Interprocess Communication/9_semaphores/semaphore.c:28-55 | Killing any process at any step frees [2] if it held it, gives back one on [1] if it had the set open and one on [0] if it was in the critical section, and disturbs no other process |
| `SemLibraryClaims.DumpUnreachable` | Chapter 3 - Interprocess Communication/9_semaphores/semaphore.c:351-353 | The dump of sem_close (counter above BIGCOUNT) is unreachable under every schedule |
| `SemLibraryClaims.RemovedOnlyWhenUnused` | Chapter 3 - Interprocess Communication/9_semaphores/semaphore.c:351-355 | For users who enter by sem_create: the set disappears only in sem_close's removal, and at that moment no process has it open |
| `SemLibraryClaims.CreateNeverHits` | Chapter 3 - Interprocess Communication/9_semaphores/semaphore.c:351-355 | Users who all enter by sem_create never hit one another: at every IPC_RMID the counter is still the BIGCOUNT that sem_close read |
| `SemLibraryClaims.InitialisedOnlyWhenUnused` | Chapter 3 - Interprocess Communication/9_semaphores/semaphore.c:213-234 | While the initialisation block is under way no process has the set open: for users who enter by sem_create, and in every other run in which no removal hits an opener |
| `SemLibraryClaims.SameId` | Chapter 3 - Interprocess Communication/9_semaphores/semaphore.c:166-255 | In those runs too (users by sem_create, or no removal that hits), all processes attached to the semaphore hold the id the key names now, across all removals and re-creations |
| `SemLibraryClaims.HolderNeverSleeps` | Chapter 3 - Interprocess Communication/9_semaphores/semaphore.c:236-251 | The process holding [2] is never put to sleep: op_endcreate and op_unlock go through in every reachable state where they are next |
| `SemLibraryClaims.NoDeadlock` | Chapter 3 - Interprocess Communication/9_semaphores/semaphore.c:320-368 | With initval at least 1 and users who enter by sem_create: while any process is alive, some live process is not asleep |
| `SemEnds.EndsExactly` | Chapter 3 - Interprocess Communication/9_semaphores/semaphore.c:150-413 | In every reachable state, sem_open users included, a process's own call ends it if and only if it is its exit, a file without a number, an overflow, nothing to open, or a set removed under a sleeper in sem_create, an opener or a user at sem_wait, sem_signal or sem_close |
| `SemEnds.CreatorsEndExactly` | Chapter 3 - Interprocess Communication/9_semaphores/semaphore.c:186-211 | Among sem_create users a turn ends a process if and only if it is a kill, its exit, a file without a number, an overflow, or the next call of one that sleeps in sem_create on a set removed meanwhile |
| `SemEnds.LockCall` | Chapter 3 - Interprocess Communication/9_semaphores/semaphore.c:186-211 | The first semop of sem_create, whole: the lock, sleep, back to semget when the set is gone before it slept, death when the set goes while it sleeps |
| `SemEnds.RetryGetsIn` | Chapter 3 - Interprocess Communication/9_semaphores/semaphore.c:195-211 | From every reachable state in which a process has the id of a set that is gone and has not slept on it, its own turns bring it to have another set open, a new one or the one the key names by then |
| `SemLibraryClaims.AtMostInitval` | Chapter 3 - Interprocess Communication/9_semaphores/semaphore.c:374-413 | In the runs of SameId, at most initval processes are between sem_wait and sem_signal, across all generations of the set |
| `SemLibraryClaims.MutualExclusion` | Chapter 3 - Interprocess Communication/9_semaphores/semaphore.c:150-413 | In the runs of SameId, with initval 1, two different processes are never both between sem_wait and sem_signal, whatever is removed, re-created or killed in between |
| `SemOpeners.SameIdExactly` | Chapter 3 - Interprocess Communication/9_semaphores/semaphore.c:351-355 | With sem_open users too, for every schedule: at every point of the run all who have the semaphore open hold the id the key names, if and only if no IPC_RMID of the run comes when [1] is not BIGCOUNT any more |
| `SemOpeners.RemovalHitsOpener` | Chapter 3 - Interprocess Communication/9_semaphores/semaphore.c:351-355 | A removal about to happen takes the set from someone who has it open if and only if [1] has moved off BIGCOUNT since it was looked at |
| `SemOpeners.AtMostInitvalInEachSet` | Chapter 3 - Interprocess Communication/9_semaphores/semaphore.c:374-413 | In every run, hits or not: at most initval processes are between sem_wait and sem_signal on any one id, live or removed |
| `SemOpeners.OneInsideEachSet` | Chapter 3 - Interprocess Communication/9_semaphores/semaphore.c:374-413 | In every run, with initval 1: two processes between sem_wait and sem_signal never have the same id |
| `SemOpeners.InsideExactly` | Chapter 3 - Interprocess Communication/9_semaphores/semaphore.c:351-355 | For every schedule: at every point of the run all who are between sem_wait and sem_signal are inside the set the key names, if and only if every IPC_RMID of the run finds [0] at initval |
| `SemOpeners.ExclusionUnlessHitInside` | Chapter 3 - Interprocess Communication/9_semaphores/semaphore.c:374-413 | So in every such run, sem_open users included, two processes are never both between sem_wait and sem_signal (initval 1) |
| `SemRuns.HitInsideBreaksExclusion` | Chapter 3 - Interprocess Communication/9_semaphores/semaphore.c:351-355 | And from any other one exclusion can break: whatever the run so far, a removal that finds [0] moved takes the set from a process inside, and goes on to a state with that one and the remover both inside |
| `SemOpeners.DeadlockExactly` | Chapter 3 - Interprocess Communication/9_semaphores/semaphore.c:282-293 | For every schedule, sem_open users included: all who live are asleep if and only if all who live are openers of a set that has not been set up |
| `SemLibraryClaims.ExecBooks` | Chapter 3 - Interprocess Communication/9_semaphores/main.c:29-62 | In every run the completed writes are 20 for each finished process, plus those of the dead, plus those of the living, who have made as many as their loop index says |
| `SemCounter.NoLostUpdates` | Chapter 3 - Interprocess Communication/9_semaphores/main.c:29-58 | From any start file whose number fits an int, in every run of sem_create users, and in every other run in which each IPC_RMID finds [0] at 1: the file reads as the first number plus the completed writes, and holds exactly the canonical text of that if the first number was not negative and its text no longer than canonical; the writes are 20 per finisher plus those of the others |
| `SemCounter.NothingLostExactly` | Chapter 3 - Interprocess Communication/9_semaphores/main.c:39-55 | In any run at all, hits, openers and any initval included: at every point the file reads as the first number plus the completed writes, if and only if no process of the run writes the successor of a number that is not in the file any more |
| `SemCounter.FinishedProcessesAddUp` | Chapter 3 - Interprocess Communication/9_semaphores/main.c:29-62 | When all have left by the normal exit the file reads as the first number plus 20 for each |
| `SemCounter.PrintsConsecutive` | Chapter 3 - Interprocess Communication/9_semaphores/main.c:39-55 | Printed numbers, in lock order, start at the first number and go up by one after each print whose process went on to write; otherwise the next print repeats the number |
| `SemPrints.RepeatsExactlyWhenStopped` | Chapter 3 - Interprocess Communication/9_semaphores/main.c:43-55 | The next number printed is the same again if and only if the schedule stops its printer between print and write (a kill, or the addition overflows) |
| `SemPrints.DistinctExactly` | Chapter 3 - Interprocess Communication/9_semaphores/main.c:43-55 | All printed numbers are distinct if and only if no printer but perhaps the last was stopped before its write |
| `SemPrints.UndisturbedPrints` | Chapter 3 - Interprocess Communication/9_semaphores/main.c:29-58 | When nobody is stopped there, the printed numbers are first, first + 1 and so on, without gap or repeat |
| `SemRuns.PrintedTwice` | Chapter 3 - Interprocess Communication/9_semaphores/main.c:43-55 | The failure itself: a run in which a process prints, is killed before it writes, and the next one prints the same number |
| `SemRuns.SoloRun` | Chapter 3 - Interprocess Communication/9_semaphores/main.c:25-62 | A run exists in which a process does its 20 passes, removes the set and leaves with the number 20 higher, so the claims above are not empty |
| `SemRuns.LatecomerStartsAgain` | Chapter 3 - Interprocess Communication/9_semaphores/semaphore.c:195-211 | A run in which the set is removed between another process's semget and its semop, and that process goes on to a set of its own |
| `SemRuns.SleeperDies` | Chapter 3 - Interprocess Communication/9_semaphores/semaphore.c:186-211 | A run in which the same removal finds it asleep in that semop, and its next call is its end |
| `SemRuns.OpenerLosesItsSet` | Chapter 3 - Interprocess Communication/9_semaphores/semaphore.c:282-293 | sem_open takes no lock: a run in which an opener comes in between sem_close's GETVAL and its IPC_RMID and then loses its set |
| `SemRuns.OpenerSleepsAlone` | Chapter 3 - Interprocess Communication/9_semaphores/semaphore.c:282-293 | A run in which a creator dies between semget and the lock and an opener sleeps on the counter that is still 0, with nobody alive to raise it |
| `SemRuns.TwoInside` | Chapter 3 - Interprocess Communication/9_semaphores/semaphore.c:282-293 | What sem_open does to mutual exclusion across sets: a run with an opener inside a set that is gone and a newcomer inside the new one |
| `SemRuns.LostUpdate` | Chapter 3 - Interprocess Communication/9_semaphores/main.c:39-55 | And to the file: that run goes on to two writes of which the file shows one |
| `SemCalls.Library.Create` | Chapter 3 - Interprocess Communication/9_semaphores/semaphore.c:150-255 | sem_create in place, undisturbed: on an unlocked key it creates the set if there is none, initialises it exactly when the counter is 0 (clearing everybody's adjustments), counts the caller with undo and leaves the lock free; on a locked one it sleeps and nothing has moved |
| `SemCalls.Library.SemOp` | Chapter 3 - Interprocess Communication/9_semaphores/semaphore.c:391-413 | sem_op in place: the error on 0, the sleep, or the value and the caller's adjustment moving by opposite amounts; nobody else's moves |
| `SemCalls.Library.Close` | Chapter 3 - Interprocess Communication/9_semaphores/semaphore.c:320-368 | sem_close in place: sleeps, dumps, removes the set when the caller was the last user, or gives one back and leaves the lock free |
| `SemCalls.Library.Visit` | Chapter 3 - Interprocess Communication/9_semaphores/main.c:25-60 | A whole visit (create, wait, signal, close) undoes itself: values and all adjustments are as before, or the set is gone when nobody else had it open |
| `SemCalls.Library.VisitCutShort` | Chapter 3 - Interprocess Communication/9_semaphores/pitfalls/pitfall_2/lock_unlock_2.c:6-9 | A visit cut short by death inside the critical section undoes itself too: a set in use is exactly as before, a new one is open nowhere and unlocked |
| `SemCalls.CreateTurns` | Chapter 3 - Interprocess Communication/9_semaphores/semaphore.c:150-255 | Refinement: the machine's four or six uninterrupted turns from semget to the return of sem_create have the effect of the call in place |
| `SemCalls.CloseTurns` | Chapter 3 - Interprocess Communication/9_semaphores/semaphore.c:320-368 | Refinement: likewise for the three turns of sem_close |
| `SeqFile.ScanFormat` | Chapter 3 - Interprocess Communication/9_semaphores/main.c:39-47 | Scanning the text printed for any number, negative ones included, gives the number back, whatever stale bytes follow its newline |
| `SeqFile.ScanParts` | Chapter 3 - Interprocess Communication/9_semaphores/main.c:41-43 | The scan on any text: white space of the six kinds, a sign or none, and then digits give the number; without a digit there is none |
| `SeqFile.ReadsHundred` | Chapter 3 - Interprocess Communication/9_semaphores/main.c:34-38 | No more than the first 100 bytes of the file are looked at |
| `SeqFile.ReadCanonical` | Chapter 3 - Interprocess Communication/9_semaphores/main.c:32-41 | The bounded read followed by the scan recovers every int from its canonical file |
| `SeqFile.OverwriteCanonical` | Chapter 3 - Interprocess Communication/9_semaphores/main.c:47-55 | Overwriting without truncation leaves exactly the new canonical text if and only if the new number is printed no narrower; so always when a number that is not negative goes up |
| `SeqFile.StepCanonical` | Chapter 3 - Interprocess Communication/9_semaphores/main.c:32-55 | For every int: adding one leaves the canonical text unless the number is -100, -1000 and so on, and even there it reads as the successor |
| `SeqFile.OverwriteShrinkingKeepsTail` | Chapter 3 - Interprocess Communication/9_semaphores/main.c:51-55 | The condition is needed: -99 written over -100 leaves a stale byte (and so would 999 over 1000) |
| `SeqFile.OverwriteReads` | Chapter 3 - Interprocess Communication/9_semaphores/main.c:51-55 | Whatever bytes the file held, the int written over it is the int read and scanned next |
| `SeqFile.PassesAddUp` | Chapter 3 - Interprocess Communication/9_semaphores/main.c:32-55 | Any number of passes over any file that reads as a number leave it reading as first plus passes, and in canonical text from a first number that is not negative and no longer than canonical |
| `SeqFile.Counter.Increment` | Chapter 3 - Interprocess Communication/1_file_record_locking/file_record.c:31-55 | The loop body in place: what is printed is what the file reads as, and a file that reads as n is left reading as n + 1 (from the canonical text of n, canonical with the one exception above); on the error exits the file is untouched |
| `SeqFile.Counter.Loop` | Chapter 3 - Interprocess Communication/1_file_record_locking/file_record.c:28-58 | From any readable file, twenty undisturbed passes print twenty consecutive numbers and leave a file that reads as the first plus 20, in canonical text when it started so and not negative |
| `MultiBuffer.SlotIsModulo` | Chapter 3 - Interprocess Communication/11_multi_buffer/server.c:150-167 | The nested buffer loops visit buffer k modulo NBUFF for message k, for any NBUFF |
| `MultiBufferProofs.ExecInv` | Chapter 3 - Interprocess Communication/11_multi_buffer/server.c:106-173 | Every run of the two processes, deaths included, keeps the protocol invariant the claims below are read off from |
| `MultiBufferClaims.OutputIsPrefix` | Chapter 3 - Interprocess Communication/11_multi_buffer/client.c:146-162 | In every state of every run the client's output is a prefix of the file, or of the error message when the file cannot be opened |
| `MultiBufferClaims.OutputIsWhole` | Chapter 3 - Interprocess Communication/11_multi_buffer/client.c:123-168 | When client() has returned, the output is the whole file or the whole error message |
| `MultiBufferClaims.TokensConserved` | Chapter 3 - Interprocess Communication/11_multi_buffer/server.c:137-167 | After priming, clisem + servsem + (server in a buffer) + (client in a buffer) = NBUFF |
| `MultiBufferClaims.NeverSameBuffer` | Chapter 3 - Interprocess Communication/11_multi_buffer/client.c:146-162 | Server and client are never in the same buffer, in the handshake and on the error path as well |
| `MultiBufferClaims.RingHoldsPending` | Chapter 3 - Interprocess Communication/11_multi_buffer/server.c:150-167 | At most NBUFF messages are pending, message j sits unchanged in buffer j modulo NBUFF until the client has given it back, and what was sent is a prefix of the file |
| `MultiBufferClaims.MessagesFit` | Chapter 3 - Interprocess Communication/11_multi_buffer/server.c:150-167 | In every run, for a file that opens: every message, and every buffer that holds one, has at most 4079 bytes |
| `MultiBufferClaims.ReadTakesAny` | Chapter 3 - Interprocess Communication/11_multi_buffer/server.c:150-167 | And any positive length up to that and to the rest of the file can be a message; at the end of the file the empty one |
| `MultiBufferClaims.UndoConserved` | Chapter 3 - Interprocess Communication/11_multi_buffer/semaphore.c:267-279 | While both processes live, value plus adjustments is 1 on clisem and 0 on servsem |
| `MultiBufferClaims.BothReturn` | Chapter 3 - Interprocess Communication/11_multi_buffer/client.c:129-162 | No reachable state has both functions blocked, and every move of either lowers a measure, so both return, for every finite file and on the error path |
| `MultiBufferClaims.LoopWaitsForClient` | Chapter 3 - Interprocess Communication/11_multi_buffer/server.c:77-84 | The server passes its wait-for-zero loop only after the client's last wait on clisem, or after its death |
| `MultiBufferClaims.SpinSeesLast` | Chapter 3 - Interprocess Communication/11_multi_buffer/server.c:77-79 | While the client lives, what the loop tests is exactly that: clisem is 0 if and only if the client has made its last wait |
| `MultiBufferClaims.LoopIsARace` | Chapter 3 - Interprocess Communication/11_multi_buffer/server.c:77-84 | When the client has returned, a server still in the loop leaves it if it looks before the client exits, and never leaves it if it looks only after, however the run goes on without a kill |
| `MultiBufferClaims.BothExit` | Chapter 3 - Interprocess Communication/11_multi_buffer/server.c:77-84 | When the client has returned and the server looks before the client exits, both processes go through their exits and the output is whole |
| `MultiBufferClaims.KillsStop` | Chapter 3 - Interprocess Communication/11_multi_buffer/semaphore.c:267-279 | A kill takes effect at any point, and the undo of the client's death puts clisem back so that value plus the server's adjustment is 1 |
| `MultiBufferClaims.StuckExactlyWhenClientGone` | Chapter 3 - Interprocess Communication/11_multi_buffer/server.c:77-84 | For every reachable state: a server in its last loop stays there under every continuation that does not kill it, if and only if the client is gone by then, returned or killed |
| `MultiBufferClaims.SpinsForever` | Chapter 3 - Interprocess Communication/11_multi_buffer/server.c:77-84 | A run without any kill that comes to that: the client returns and exits before the server looks, and the server loops for ever |
| `MultiBufferClaims.ExitStarvesUnlessPastLast` | README.md:17 | Exact effect of the server's exit on a live client, whenever it comes: past its last clisem wait the client finishes with the whole output; before it, the undo keeps the client from ever finishing, under every schedule |
| `MultiBufferClaims.DoomedForever` | README.md:17 | Once the server is gone and the client still has waits to make, no continuation lets client() return |
| `MultiBufferClaims.ReturnIsTooEarly` | Chapter 3 - Interprocess Communication/11_multi_buffer/client.c:31-48 | The loop is needed: a run in which server() has returned while the client has not taken the end marker |
| `MultiBufferRing.Ring.Fill` | Chapter 3 - Interprocess Communication/11_multi_buffer/server.c:150-167 | One pass of the server's inner loop in place: appends the next piece of the file to what is pending and keeps the ring in order |
| `MultiBufferRing.Ring.Take` | Chapter 3 - Interprocess Communication/11_multi_buffer/client.c:146-162 | One pass of the client's loop in place: takes the oldest pending message and keeps the ring in order unless it was the end |
| `MultiBufferRing.Ring.Transfer` | Chapter 3 - Interprocess Communication/11_multi_buffer/client.c:146-168 | Alternating passes in any order a schedule likes terminate with the whole file printed and nothing pending |
| `Inetd.Table.constructor` | Chapter 6 - Berkely Sockets/Sockets/12.inetd/inetd.c:230-277 | Start-up: every socket is watched, the table holds 0 for datagram services and -1 for streams, and the counter agrees with it |
| `Inetd.Table.SigChild` | Chapter 6 - Berkely Sockets/Sockets/12.inetd/inetd.c:507-531 | The handler in place, after a child is reaped: exactly the first matching service is re-armed and forgotten, the counter goes down once, and an unknown pid changes nothing |
| `Inetd.Table.Ready` | Chapter 6 - Berkely Sockets/Sockets/12.inetd/inetd.c:300-301 | The scan picks the first service whose bit is set |
| `Inetd.Table.Record` | Chapter 6 - Berkely Sockets/Sockets/12.inetd/inetd.c:443-446 | Recording a datagram child keeps the counter in step with the table |
| `Inetd.Table.Rearm` | Chapter 6 - Berkely Sockets/Sockets/12.inetd/inetd.c:486-495 | Undisturbed, the re-arm block watches exactly the streams and the datagram services without a child, and touches no other descriptor |
| `Inetd.TakeInv` | Chapter 6 - Berkely Sockets/Sockets/12.inetd/inetd.c:279-531 | One statement of the main loop, one return of select, one fork, one child's end or one signal, in any order, keeps table, counter and fd set consistent |
| `Inetd.NeverTwoChildren` | Chapter 6 - Berkely Sockets/Sockets/12.inetd/inetd.c:418-476 | No datagram service ever has two unreaped children, with SIGCHLD between any two steps, fork and pid store included, and with pid reuse |
| `Inetd.ForkedOnlyWhenFree` | Chapter 6 - Berkely Sockets/Sockets/12.inetd/inetd.c:418-444 | A datagram child is forked only for a service that has no unreaped child |
| `Inetd.CounterExact` | Chapter 6 - Berkely Sockets/Sockets/12.inetd/inetd.c:489-489 | At the test, udp_select_conn is the number of datagram services with a child on record |
| `Inetd.SelectWatches` | Chapter 6 - Berkely Sockets/Sockets/12.inetd/inetd.c:284-288 | At every select the watched sockets are exactly the streams and the datagram sockets with child_pid 0, apart from those whose re-arming by the handler fell between a test and its FD_CLR |
| `Inetd.CalmNeverLoses` | Chapter 6 - Berkely Sockets/Sockets/12.inetd/inetd.c:491-492 | When no signal reaps the very child whose FD_CLR is pending, nothing is ever lost (one half of the next row) |
| `InetdServes.NobodyPassedOver` | Chapter 6 - Berkely Sockets/Sockets/12.inetd/inetd.c:300-301 | In every run: while the scan goes on, every service that select found ready is still ahead of it; at a fork none below was ready; and a scan never runs off the end without serving one |
| `InetdServes.FirstReadyIsServed` | Chapter 6 - Berkely Sockets/Sockets/12.inetd/inetd.c:300-301 | From every reachable select, whatever set it returns, the main loop alone comes to serve the least service in it |
| `InetdServes.ServiceIsServed` | Chapter 6 - Berkely Sockets/Sockets/12.inetd/inetd.c:314-495 | A fork makes the child of just that service, and the main loop alone comes back to select: a datagram child is on record and counted and its socket alone is out, a stream goes on being watched |
| `InetdServes.ChildIsReaped` | Chapter 6 - Berkely Sockets/Sockets/12.inetd/inetd.c:507-531 | Any child can end, and the signal reaps it wherever the main loop is: its datagram service is watched again, has no child and is not counted; a stream's child leaves the table as it is |
| `InetdServes.TestByChildren` | Chapter 6 - Berkely Sockets/Sockets/12.inetd/inetd.c:489-489 | The clearing loop is entered if and only if a datagram service has a child on record |
| `InetdServes.ExitsExactly` | Chapter 6 - Berkely Sockets/Sockets/12.inetd/inetd.c:284-293 | Only a failing accept or fork ends the dispatcher, and only the return of select, not an interruption, leaves it |
| `InetdWindow.ExactExactlyWhenCalm` | Chapter 6 - Berkely Sockets/Sockets/12.inetd/inetd.c:486-495 | A run, from any of its points on continued by the main loop to its select, always watches exactly the streams and the datagram sockets without a child, if and only if no signal fell between a test and its FD_CLR |
| `InetdWindow.SignalLosesSocket` | Chapter 6 - Berkely Sockets/Sockets/12.inetd/inetd.c:491-492 | After every such signal the service has no child and is not watched at any select until select has returned again, whatever else happens |
| `Inetd.WindowLosesSocket` | Chapter 6 - Berkely Sockets/Sockets/12.inetd/inetd.c:491-492 | Otherwise it can be lost: a run after which select does not watch a datagram socket that has no child |
| `Strtol.Power` | Chapter 6 - Berkely Sockets/my_ emulation/library_functions/strtol/strtol.c:375-383 | The loop computes the power wrapped to 64 bits |
| `Strtol.Sum` | Chapter 6 - Berkely Sockets/my_ emulation/library_functions/strtol/strtol.c:318-370 | The right-to-left summing loops, with the previous-sum test, return the wrapped left-to-right value, or ERANGE exactly when some partial sum moves the wrong way |
| `Strtol.ReadPrefix` | Chapter 6 - Berkely Sockets/my_ emulation/library_functions/strtol/strtol.c:171-229 | The base and prefix block settles the first digit and the base as the prefix rules say, or refuses and sets the endptr it was given |
| `Strtol.MyStrtol` | Chapter 6 - Berkely Sockets/my_ emulation/library_functions/strtol/strtol.c:148-373 | For every text and base, with or without endptr: value and errno are those of blanks, sign, prefix, longest accepted stretch and sum; a caller's endptr is left alone, moved, or has a NUL written through it as specified; without one, a call that finds digits reads through the null pointer |
| `StrtolSum.SumIsResidues` | Chapter 6 - Berkely Sockets/my_ emulation/library_functions/strtol/strtol.c:318-370 | The exact overflow condition, for every digit sequence, base and sign: ERANGE if and only if the digits' values modulo 2^64 add up to more than a long holds; otherwise that sum is returned |
| `StrtolSum.SumIsExact` | Chapter 6 - Berkely Sockets/my_ emulation/library_functions/strtol/strtol.c:318-370 | So below 2^64 the wraparound test is exact: a number that fits a long is returned, any other is reported as ERANGE |
| `StrtolClaims.AgreesWithStandard` | Chapter 6 - Berkely Sockets/my_ emulation/library_functions/strtol/strtol.c:148-373 | Against section 7.22.1.4 of ISO C11, for blanks, a sign and letters and digits, every base: refusals agree if and only if no lone zero is taken for a prefix; values agree whenever they fit; a number that does not fit is reported if and only if its residues exceed a long, always below 2^64; and what is returned when it is not |
| `StrtolClaims.EndAgreesWithStandard` | Chapter 6 - Berkely Sockets/my_ emulation/library_functions/strtol/strtol.c:206-290 | endptr agrees with the standard exactly when the text goes on behind the number (or, with no number, when there are no blanks and sign); an 0x taken for a prefix in vain stays skipped |
| `StrtolRanges.ScanByRanges` | Chapter 6 - Berkely Sockets/my_ emulation/library_functions/strtol/strtol.c:241-265 | From any place in any text, the scan stops at the first character outside plain ranges: up to base 10 everything below the first digit too many is taken, above it everything but the letters too many |
| `StrtolRanges.NumberInText` | Chapter 6 - Berkely Sockets/my_ emulation/library_functions/strtol/strtol.c:241-373 | Any text by those ranges, in every base: value, ERANGE and endptr for a run of taken characters and whatever follows it |
| `StrtolRanges.PunctuationIsRange` | Chapter 6 - Berkely Sockets/my_ emulation/library_functions/strtol/strtol.c:255-255 | A character below 0 (or a byte above 127) inside a number does not end it: the answer is ERANGE, with either sign, and endptr goes behind all of the run |
| `StrtolRanges.DecimalPunctuation` | Chapter 6 - Berkely Sockets/my_ emulation/library_functions/strtol/strtol.c:255-255 | In decimal, for any digits in front, any such character and up to 16 digits behind it: ERANGE, and a NUL is written through endptr |
| `StrtolRanges.ThreePointOneFour` | Chapter 6 - Berkely Sockets/my_ emulation/library_functions/strtol/strtol.c:255-255 | Concrete ones: 3.14, -3.14, 12 34, 1,000 and a 5 with a space behind it are all out of range |
| `StrtolClaims.EndMisplaced` | Chapter 6 - Berkely Sockets/my_ emulation/library_functions/strtol/strtol.c:284-290 | Concrete ones: on 5 in base 10 a NUL is written where the standard sets endptr behind the 5; on 0x in base 16 endptr lands behind the x, not the 0 |
| `StrtolClaims.NullEndptrReturns` | Chapter 6 - Berkely Sockets/my_ emulation/library_functions/strtol/strtol.c:284-293 | A call with a null endptr comes back if and only if the text is refused with EINVAL: with anything to convert, the log line reads through the pointer |
| `StrtolClaims.NullEndptrStops` | Chapter 6 - Berkely Sockets/my_ emulation/library_functions/strtol/strtol.c:284-293 | A concrete one: 5 in base 10 is 5 with an endptr and never comes back without one |
| `StrtolClaims.EatenIsNumber` | Chapter 6 - Berkely Sockets/my_ emulation/library_functions/strtol/strtol.c:171-205 | The texts behind that condition are numbers (0) for the standard, and my_strtol refuses them |
| `StrtolClaims.LoneZeros` | Chapter 6 - Berkely Sockets/my_ emulation/library_functions/strtol/strtol.c:171-277 | Concrete ones: 0 in base 0, 0 in base 8 and 0x in base 16 are refused with EINVAL |
| `StrtolClaims.PrintThenParse` | Chapter 6 - Berkely Sockets/my_ emulation/library_functions/strtol/strtol.c:148-373 | Printing any n >= 1 in any base 2 to 36, with sign and with the 0 or 0x form the base admits, and parsing it gives the number back whenever it fits |
| `StrtolSum.PowerOfBase` | Chapter 6 - Berkely Sockets/my_ emulation/library_functions/strtol/strtol.c:333-340 | A one and zeros: reported if and only if the power modulo 2^64 exceeds a long; otherwise that remainder is returned |
| `StrtolSum.LargePowerGoesUnnoticed` | Chapter 6 - Berkely Sockets/my_ emulation/library_functions/strtol/strtol.c:333-340 | In particular a power that is a multiple of 2^64 comes back as 0 without ERANGE |
| `StrtolClaims.HexTwo64` | Chapter 6 - Berkely Sockets/my_ emulation/library_functions/strtol/strtol.c:148-373 | A concrete text: 10000000000000000 in base 16 is 2^64 for the standard, and my_strtol returns 0 with no error |
| `LockFile.TakeInv` | Chapter 3 - Interprocess Communication/1_file_record_locking/lock.c:57-172 | One step of any process, or its death, keeps the invariant of directory, file and printed numbers, for all three locks |
| `LockFile.LockMeansOneHolder` | Chapter 3 - Interprocess Communication/1_file_record_locking/lock.c:57-111 | For any number of processes with distinct pids, the lock file exists if and only if exactly one process is between its successful lock and its unlink (or died there) |
| `LockFile.UnlinkNeverFails` | Chapter 3 - Interprocess Communication/1_file_record_locking/lock.c:98-111 | Neither unlink can fail: not that of the temporary name, not that of the lock file |
| `LockFile.TempNameIsPrivate` | Chapter 3 - Interprocess Communication/1_file_record_locking/lock.c:62-72 | A process's temporary name is in the directory exactly between its creat and its unlink, and no turn of another process changes that |
| `LockFile.NoLostUpdates` | Chapter 3 - Interprocess Communication/1_file_record_locking/file_record.c:28-58 | From any start file whose number fits an int, under each lock: the file reads as the first number plus the completed writes (canonical text as above), and the printed numbers are consecutive without a gap or a repeat |
| `LockFile.AllDoneAddUp` | Chapter 3 - Interprocess Communication/1_file_record_locking/file_record.c:28-58 | When all N processes are done the file reads as the first number plus 20 N, in canonical text as above |
| `LockFile.DeadHolderBlocks` | Chapter 3 - Interprocess Communication/1_file_record_locking/lock.c:141-172 | Unlike SEM_UNDO, a lock file outlives a dead holder: in no continuation does anyone else hold the lock or write again |
| `LockProgress.WaitsForLock` | Chapter 3 - Interprocess Communication/1_file_record_locking/lock.c:78-84 | A process that finds the lock taken is unchanged, and one whose try finds it gone gets it |
| `LockProgress.SomebodyMoves` | Chapter 3 - Interprocess Communication/1_file_record_locking/lock.c:78-84 | While somebody has passes to make and no holder has died, some process has a turn that lowers a measure that is never negative |
| `LockProgress.DiesExactly` | Chapter 3 - Interprocess Communication/1_file_record_locking/file_record.c:31-55 | A process's own call is its last if and only if the file has no number, the addition overflows, or it is the last unlink |
| `LockProgress.NobodyDies` | Chapter 3 - Interprocess Communication/1_file_record_locking/lock.c:57-172 | From a readable file with room for all passes, no process ever stops at an error in a run without kills |
| `LockProgress.AllComeToDone` | Chapter 3 - Interprocess Communication/1_file_record_locking/file_record.c:28-58 | From every point of such a run all N processes can be brought to their end, with the number 20 N higher |
| `LockProgress.CreatGoesThrough` | Chapter 3 - Interprocess Communication/1_file_record_locking/lock.c:62-72 | A temporary file left behind by an earlier process does not stop creat |
| `LockProgress.KillStops` | Chapter 3 - Interprocess Communication/1_file_record_locking/lock.c:57-172 | A kill takes effect anywhere and leaves directory, file and the other processes as they are |
| `Framing.IntReadsBack` | Chapter 3 - Interprocess Communication/6_stream_messages/msg.c:57-66 | The stored four-byte length reads back as the int it was, negative ones included |
| `Framing.ReceiveSent` | Chapter 3 - Interprocess Communication/6_stream_messages/msg.c:19-73 | mesg_recv on a mesg_send frame followed by anything returns the message and takes exactly the frame's bytes |
| `Framing.ReceiveCut` | Chapter 3 - Interprocess Communication/6_stream_messages/msg.c:47-73 | A message cut short at any byte: end of file, a broken header below 16 bytes, broken data from there on |
| `Framing.ReceiveOddLength` | Chapter 3 - Interprocess Communication/6_stream_messages/msg.c:47-73 | A header with a length of 0 or below is a message without data, and with one above 4080 it is too long |
| `Framing.ReceiveManySent` | Chapter 3 - Interprocess Communication/6_stream_messages/msg.c:19-73 | Any sequence of messages, empty ones included, comes back in order and the rest of the stream is untouched |
| `Framing.DrainFrames` | Chapter 3 - Interprocess Communication/6_stream_messages/ipc_client.c:50-54 | The client's loop over non-empty frames and an empty one prints what they carry, ends at the empty one and leaves the rest |
| `Framing.Mesg.Send` | Chapter 3 - Interprocess Communication/6_stream_messages/msg.c:19-33 | Send in place: what it appends to the stream is received as exactly this message |
| `Framing.Mesg.Recv` | Chapter 3 - Interprocess Communication/6_stream_messages/msg.c:47-73 | Receive in place, on any stream: outcome and bytes consumed are those of the specification, end of file and both read errors included, and the structure is filled accordingly |
| `Framing.Server` | Chapter 3 - Interprocess Communication/6_stream_messages/ipc_server.c:74-89 | The server's loop in place, for every split of the reads, appends non-empty frames that together carry the file (or its error message), then one empty frame; when a read fails, frames that carry a part of the file, and no empty one |
| `Framing.Client` | Chapter 3 - Interprocess Communication/6_stream_messages/ipc_client.c:50-58 | The client's loop on any stream whatsoever does what repeated receiving specifies, and terminates |
| `Framing.Transfer` | Chapter 3 - Interprocess Communication/6_stream_messages/ipc_client.c:50-58 | Server's loop, then client's loop, over an empty FIFO: the output is the file or the error message and nothing stays on the FIFO; when a read of the file fails, the output is a part of it and the client ends at the end of file |
| `FramingPipe.TakeInv` | Chapter 3 - Interprocess Communication/6_stream_messages/ipc_server.c:35-90 | With both sides interleaved over bounded FIFOs (name exchange, directory test, failing reads and kills included), every call keeps the frames on the FIFO whole and the text accounted for |
| `FramingPipe.OutputIsGoal` | Chapter 3 - Interprocess Communication/6_stream_messages/ipc_client.c:24-59 | Under every schedule the output is a part of the file or error message, all of it when both have returned, nothing for a directory or an empty name; and no read comes up short when frames are atomic |
| `FramingPipe.BothEnd` | Chapter 3 - Interprocess Communication/6_stream_messages/ipc_server.c:35-90 | No deadlock over FIFOs of any size that fits an atomic write, and every call lowers a measure, so both sides end |
| `FramingPipe.SafeExactlyWhenFramesFit` | Chapter 3 - Interprocess Communication/6_stream_messages/msg.c:19-73 | No header or data read ever comes up short, under any schedule, if and only if the name's frame and the largest message's frame fit an atomic write |
| `FramingPipe.TornOnSmallPipe` | Chapter 3 - Interprocess Communication/6_stream_messages/msg.c:19-73 | A concrete run: pipes of 512 bytes, a file of 600, and the client's header read comes up short |
| `FramingEnds.ServerStopsExactly` | Chapter 3 - Interprocess Communication/6_stream_messages/ipc_server.c:35-90 | The server gives up if and only if it gets no name, an empty one or a directory's, or the client is gone when it writes |
| `FramingEnds.ClientStopsExactly` | Chapter 3 - Interprocess Communication/6_stream_messages/ipc_client.c:24-59 | The client gives up if and only if the server is over when it writes the name, and returns if and only if the next message is the end marker or there is none to come |
| `FramingEnds.NothingForDirectory` | Chapter 3 - Interprocess Communication/6_stream_messages/ipc_server.c:50-66 | For an empty name and for a directory, in every run, no message is sent and server() never returns |
| `FramingEnds.ClientReceives` | Chapter 3 - Interprocess Communication/6_stream_messages/msg.c:47-73 | The client's header turn is mesg_recv on any bytes whatsoever: the same five outcomes and the same data |
| `FramingEnds.ServerReceives` | Chapter 3 - Interprocess Communication/6_stream_messages/msg.c:47-73 | And so is the server's, which refuses a name without a length |
| `FramingEnds.PiecesOfAnyLength` | Chapter 3 - Interprocess Communication/6_stream_messages/msg.c:19-33 | A frame that is not atomic may go out in pieces of any length there is room for |
| `LineIo.ReadLineWhole` | Chapter 6 - Berkely Sockets/Sockets/1.tcp/readline.c:3-26 | A line that fits is read whole and counted right, whatever follows it |
| `LineIo.ReadLineCount` | Chapter 6 - Berkely Sockets/Sockets/1.tcp/readline.c:3-26 | By the input alone: the count is the number of bytes stored if and only if a newline comes before the buffer is full or the connection closes at once; -1 if and only if it fails first; one too high in every other case |
| `LineIo.CountTooHigh` | Chapter 6 - Berkely Sockets/Sockets/1.tcp/readline.c:13-25 | A concrete input: one byte and then end of file is counted as two |
| `LineIo.Reader.ReadLine` | Chapter 6 - Berkely Sockets/Sockets/1.tcp/readline.c:3-26 | The loop, one byte at a time, returns what the specification says, read errors included, and takes exactly the bytes it stored off the connection |
| `LineIo.Writer.Writen` | Chapter 6 - Berkely Sockets/Sockets/1.tcp/writen.c:3-20 | Over arbitrary short writes: the full count means every byte went out in order; any other result is the failing write's, with a proper prefix out |
| `Echo.TakeInv` | Chapter 6 - Berkely Sockets/Sockets/1.tcp/str_echo.c:6-25 | One call of either side, with any number of bytes taken, keeps every byte of the line in exactly one place, in order |
| `Echo.EchoIsFaithful` | Chapter 6 - Berkely Sockets/Sockets/1.tcp/str_cli.c:12-29 | For NUL-free text of newline-ended lines that fit, under every schedule and channel size: standard output is always a prefix of standard input, and equal to it when str_cli returns |
| `Echo.EchoTerminates` | Chapter 6 - Berkely Sockets/Sockets/1.tcp/str_echo.c:10-24 | Until both have returned one of them can move, and every move lowers a measure: no deadlock, and both return |
| `Echo.ClientReadsLine` | Chapter 6 - Berkely Sockets/Sockets/1.tcp/str_cli.c:20-28 | The client's reading steps are readline: the line to be read stays the same from step to step, and its text up to a NUL is what is printed |
| `Echo.ServerReadsLine` | Chapter 6 - Berkely Sockets/Sockets/1.tcp/str_echo.c:11-20 | The server's reading steps are readline, and what it then writes is as many bytes as the count says |
| `Echo.FgetsByNewline` | Chapter 6 - Berkely Sockets/Sockets/1.tcp/str_cli.c:12-12 | What fgets takes from any text: through the first newline among the first 511 characters, else 511 characters or all there are |
| `Echo.FputsToNul` | Chapter 6 - Berkely Sockets/Sockets/1.tcp/str_cli.c:26-28 | What is printed of a buffer ends at its first NUL |

## Left out

- The five concurrent programs are step machines on values rather than methods that update objects in
  place, because another process may act between any two calls; a machine's step shows each call's whole
  effect on the shared state, but not C's local variables and registers. The library's calls, the kernel's
  operations on a set, the counting loop, the two transfer loops and the loops of inetd are also given in
  place, as methods.
- SemCalls.Library.Create: one caller at a time, so the retry after EINVAL is only in `SemLibrary.Run`.
- MultiBufferRing.Ring.Transfer: starts behind the handshake and takes one loop pass at a time; statement by
  statement the two loops, the handshake and the error path interleave in `MultiBuffer`.
- SemLibrary.Run: IPC_PRIVATE and -1 as keys, permissions and file modes, full kernel tables, a failing
  `sem_op` with value 0 (never passed) and errno values other than EINVAL, EEXIST and EINTR are not
  modelled; a process whose set is removed while it sleeps dies with an error, as the code's err_sys makes it.
- SemKernel.SemSet.Exit: an adjustment that would take a value below zero leaves zero; System V kernels
  differ there. In the semaphore library it cannot happen; in the multi-buffer pair it can.
- SemLibrary.Run, LockFile.Run: a sequence number about to pass INT_MAX stops its process, since C gives
  the addition no meaning.
- SemCounter.NoLostUpdates, LockFile.NoLostUpdates: a start file whose number does not fit an int, which
  `%d` gives no meaning.
- SemPrints.DistinctExactly: the printed numbers of the runs in which a removal takes the set from somebody inside.
- MultiBuffer.ServerRun: members [1] and [2] of the two sets and the removal of the sets are not repeated
  here (they are the library's, see `SemLibrary`); shared memory is attached throughout; a failing read or
  write and a file name too long for the error text are not modelled; the name is taken without its newline.
- Inetd.Statement: the contents of connections, exec, logging and the daemon's start-up; a failing accept
  or fork is one exit; a single statement counts as one step; a service is one of the four names.
- Inetd.SelectWatches: no liveness: one child is reaped per signal, and a child reaped before its pid is
  stored leaves a stale pid that keeps its socket unwatched.
- Strtol.MyStrtol: the text of the log lines, and clamped results on overflow, which the code does not give.
- StrtolClaims.AgreesWithStandard: only blanks that the code itself skips (spaces), and only letters and digits
  behind the sign; other texts are in `StrtolRanges`, where the standard's answer is not spelled out. isalpha is
  that of the C locale, also for negative characters.
- LockFile.Run: `lockf` and `flock`, and retries that wait a second; the creat lock fails only for callers
  who are not the super-user; creating a file otherwise never fails.
- Framing.Mesg.Recv: a length above the buffer's size stops the model (the code would overrun the buffer);
  the byte order is little-endian with the header's four bytes of padding.
- Framing.Transfer: one side after the other over an unbounded FIFO; bounded, interleaved, with the name
  and the directory test it is `FramingPipe`.
- FramingPipe.OutputIsGoal: the name of a file that does not open fits the buffer together with the error text
  (the code would overrun it), a name fits what fgets takes and
  has no NUL byte, and a write to the terminal does not fail.
- Echo.EchoIsFaithful: lines longer than MAXLINE - 1 bytes, text with NUL bytes, a last line without a
  newline and failing reads or writes; `Echo.ServerRun` does model the byte too many that the server
  then writes, and `LineIo.Writer.Writen` the failing write.
- Echo.EchoTerminates, MultiBufferClaims.BothReturn: stated as "someone can move and every move lowers the
  measure"; that a process which can move is eventually given its turn is left to the scheduler.
- The typed message queues, the single-buffer shared memory pair, plain pipes and FIFOs, the datagram and
  Unix-domain pairs, `my_readv` and `my_writev`, reserved ports, the programs of chapter 2, error printing
  and logging: they would add easier members of the same kinds.

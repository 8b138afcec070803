# A verified model of the multicast map/reduce server

A shell starts a min or max job. The server picks a free group, splits the data set among the
group's free clients, ships the chunks over a type-length-value protocol, collects one reply
from each client and folds the replies into the answer. This project models the three parts of
that program in which something can go wrong without anybody noticing, and proves what they do.

**The thread pool** (`thpool.c`) is a system of atomic steps. Every thread is a program counter;
taking and releasing a mutex, reading or writing a shared variable, parking on the condition
variable and being woken are separate steps, so other threads may run between any two of them.
The condition variable has its meaning in POSIX.1-2017: a signal wakes at least one parked
thread, a broadcast all of them, and a parked thread may wake by itself. An inductive invariant
is kept by every step of any number of threads, and the theorems are about every run: draining,
no stranded work, the two unlocked reads of `thpool_wait`, and a shutdown that loses no job and
ends. What the callers submit is told from the steps of a run alone, and it is what the pool has
run. The queue is written
again as a heap class whose methods are tied to the pool's steps.

**The reassembler and the transfer** (`assemble_tlv`, `client_Handler`, the file handlers).
`Parse` is the meaning of a whole byte stream. `Feed` is the source's resumable machine on one
read, flaws included, and the class `TlvState` is its fields and its loop, proved equal to
`Feed`. The machine agrees with the parser after a read *if and only if* the read is
`Admissible`, a condition on the bytes held and the read alone. For what the chunk sender sends
this reduces to one condition, and then the client's file is rebuilt exactly, from the bytes the
sender writes to the disk of the client.

**The job protocol** (`job_addition`, `multicast_Group_Handler`, `Handle_result`, over
`group_algo.c`, `client_algo.c` and `job_code.c`). A transition system over the tables as
values has an inductive invariant from which conservation of replies, exclusive assignment,
progress and the final answer follow for every reachable state. Over a run, job number n is the
n-th that was started, and its result is the minimum or maximum of the lines that start was given. The tables are then written as heap classes,
and each method of the class `Server` is proved to be one step of that system; so is a client's
message, from its program through one read of the server to the tables.

## How it is laid out

| file | content |
|---|---|
| `PoolModel`, `PoolInvariants` | the pool's steps, and the invariant that every step keeps |
| `PoolDraining`, `PoolWait`, `PoolShutdown` | what holds of every run |
| `PoolRounds`, `PoolTermination` | each round of a shutdown sends a worker home, and the shutdown ends |
| `PoolSubmissions`, `PoolLife` | what is submitted is what is run; any jobs can be submitted, run and the pool destroyed |
| `JobQueueHeap` | the job queue as linked nodes |
| `PollBackoff` | the growing sleep of `thpool_wait` |
| `TlvWire`, `TlvMachine`, `TlvAssembler` | wire format and parser, machine against parser, the code against the machine |
| `TlvFailures` | the two ways in which a read is not admissible, at inputs |
| `FileTransfer`, `JobTransfer`, `Messages`, `WireBytes` | sender and file handlers, the transfer end to end; the payloads that carry integers; every message byte for byte |
| `JobTables`, `JobProtocol`, `JobTheorems`, `JobProgress`, `JobRuns` | the tables as values, the protocol with its invariant, the theorems about states, steps and runs |
| `GroupLists`, `JobListHeap`, `JobServer`, `ServerReads` | the tables on the heap, the handlers as protocol steps, and the reads that call them |
| `Sums` | sums of a measure over a sequence |

## Where the code is right only under a condition

- **A late body is lost.** When a read completes a header that an earlier read began and holds five
  or more bytes after it, line 92 of `tlv_handlers.c` takes those bytes for a new header.
  It happens to the sender's own stream: an order to execute that is cut inside its header and
  otherwise read whole is always swallowed (`TlvFailures.SplitOrderIsSwallowed`).
  `TlvMachine.OneRead` is the exact condition.
- **A split length is read from its last byte.** Lines 64 and 82 put all four length bytes into the
  low byte. This is right exactly for lengths below 256, which is part of `Admissible`; for other
  lengths `TlvFailures.SplitLengthIsLowByte` says what is done instead.
- **The last lines of a data set are sent to nobody** when the number of clients does not divide
  the number of lines: `JobTheorems.WholeIffDivides`.
- **A sleep can get stuck.** If a round of `thpool_wait` makes the nanoseconds come to exactly
  `MAX_NANOSEC`, they become 0 and the loop never gives up. `PollBackoff.LeavesIffNotLanded` says
  exactly from which intervals this happens; `PollBackoff.StartLeaves` shows that the interval the
  code starts with is not one of them.
- **An empty file leaves the target as it was**, since no write frame is sent:
  `FileTransfer.EmptyFileLeavesTarget`.

## Model

| member | source | states |
|---|---|---|
| PoolInvariants.NextKeepsInv | thpool.c:334-553 | Every enabled step of any thread, signal, spurious wake-up, submission or shutdown keeps the invariant: who holds each mutex, what each counter counts, that work is announced and the bit is not stranded. |
| PoolInvariants.ReachableInv | thpool.c:116-553 | The invariant holds in every state of every run from thpool_init, for any number of workers and callers. |
| PoolInvariants.HoldersInside | thpool.c:346-377 | A mutex that is held is held by a thread that is between its lock and its unlock. |
| PoolInvariants.StepCounts | thpool.c:346-380 | An instruction changes num_threads_alive and num_threads_working exactly as it changes the number of threads between increment and decrement. |
| PoolInvariants.StepJobs | thpool.c:361-373 | An instruction moves a job from queue to hand to finished without losing or doubling it. |
| PoolInvariants.GoKeepsBits | thpool.c:484-488 | Queued work stays announced, and the bit is not left set behind parked threads only, across every instruction. |
| PoolDraining.PoolStepConsumes | thpool.c:334-386 | With keepalive set, every step of the pool itself strictly lowers a measure of the steps left, signals included. |
| PoolDraining.DrainsWithin | thpool.c:334-386 | A run without new work, shutdown or spurious wake-ups is no longer than the measure of its first state. |
| PoolDraining.StopsOnlyDrained | thpool.c:334-386 | Such a run can stop only with the queue empty, exactly the pushed jobs finished, working 0 and every worker parked. |
| PoolDraining.NoStrandedWork | thpool.c:353-367 | Queued work always has the bit set, a holder of the queue mutex about to set it, or a worker that took it and has not pulled; and a set bit with parked workers has somebody who will look again. |
| PoolDraining.QuietMutexes | thpool.c:528-553 | When no pool step is possible no mutex is held, so nothing is deadlocked on one. |
| PoolWait.EmptyMeansPulled | thpool.c:206-230 | Reading len as 0 means that every push that has completed was pulled. |
| PoolWait.WaitSeesCompletion | thpool.c:197-230 | If len is read as 0 and, any steps later, working as 0, every job whose push had completed at the first read has finished by the second. |
| PoolSubmissions.SubmittedIsPushed | thpool.c:170-186 | In every run each job has been submitted, counted over the calls of thpool_add_work, as often as it was pushed or is about to be. |
| PoolSubmissions.SubmittedIsFinished | thpool.c:170-186 | A pool in use that can do no more has finished exactly the jobs submitted to it, each as often as it was. |
| PoolSubmissions.SubmittedIsAccountedFor | thpool.c:235-261 | In a destroyed pool the jobs submitted are those finished and those discarded. |
| PoolSubmissions.WaitSeesSubmitted | thpool.c:197-230 | When thpool_wait reads len 0 and then working 0, each job submitted before the first read has finished as often as it was submitted, but for the calls that had not yet written len. |
| PoolSubmissions.OneCallerInOrder | thpool.c:443-493 | The jobs of a single caller are pushed, and pulled, in the order of its calls. |
| PoolLife.Serves | thpool.c:116-186 | For any list of jobs and any number of workers but 0 there is a run that submits them in that order and finishes each. |
| PoolLife.WholeLife | thpool.c:116-261 | And one that then destroys the pool, with nothing discarded. |
| PoolShutdown.PullsAfterStop | thpool.c:240-256 | After keepalive is cleared the number of further pulls is at most the number of workers then between the inner check and the pull. |
| PoolShutdown.NobodyAlive | thpool.c:248-256 | When alive is read as 0 no worker holds a job, and all that was pulled has finished. |
| PoolShutdown.EveryJobAccountedFor | thpool.c:235-261 | After thpool_destroy each pushed job was finished once or discarded once by the clear loop, as multisets, the discarded ones are the last pushed, and the queue and the bit are clear. |
| PoolShutdown.JobsFlowInOrder | thpool.c:361-373 | In every reachable state pushed is pulled, then discarded, then queued, as sequences, and each pulled job is finished or in the hands of one worker, counted as often as it was pushed. |
| PoolShutdown.StopsOnlyDestroyed | thpool.c:235-261 | A shutdown cannot stop before the pool is destroyed with every worker exited and the queue empty. |
| PoolRounds.SignalEffect | thpool.c:528-542 | A signal wakes at least one parked thread if there is one, a broadcast all of them; only the sender and woken threads change. |
| PoolRounds.RestIsParked | thpool.c:248-256 | When thpool_destroy tests num_threads_alive with the workers at rest, that is the number of parked ones, every other one has exited, and the bit is not set behind them. |
| PoolRounds.RoundLowersAlive | thpool.c:248-256 | Whatever the threads do in between, a broadcast after which the workers are found at rest again lowers num_threads_alive. |
| PoolRounds.RoundsBounded | thpool.c:248-256 | The rounds of a shutdown that start from workers at rest are no more than the workers alive at the first. |
| PoolTermination.PatientStepEnds | thpool.c:235-261 | Once keepalive is cleared every step, of a worker or of thpool_destroy, lowers a measure of the steps left, as long as no broadcast finds the bit set. |
| PoolTermination.NextKeepsClear | thpool.c:248-256 | If thpool_destroy goes on from its test only with the workers at rest, its broadcast does find the bit clear. |
| PoolTermination.ShutdownEnds | thpool.c:235-261 | Such a shutdown has no more steps than a measure of the state at any of its tests: no schedule of the threads makes it go on for ever. |
| PoolTermination.EndsDestroyed | thpool.c:235-261 | Where no such step is possible the pool is destroyed, every worker has exited and the queue is empty. |
| JobQueueHeap.WholeOperations | thpool.c:443-493 | Without interference the pool's steps of a push and a pull amount to append and take-first, and a pull posts exactly when jobs remain. |
| JobQueueHeap.BinarySemaphore.constructor | thpool.c:510-519 | bsem_init accepts the values 0 and 1. |
| JobQueueHeap.BinarySemaphore.Post | thpool.c:528-533 | A post sets the bit whatever it was. |
| JobQueueHeap.Queue.constructor | thpool.c:402-421 | The queue starts empty with the bit clear. |
| JobQueueHeap.Queue.Push | thpool.c:443-461 | The chain from front along prev gains the node at its rear; front, rear and len stay right, acyclic, and the result is the pool's push steps. |
| JobQueueHeap.Queue.Pull | thpool.c:468-493 | The front node leaves the chain, or null is returned and nothing changes; the bit is set exactly when nodes remain, else kept. |
| JobQueueHeap.Queue.LockedPull | thpool.c:361-364 | Under the mutex the heap pull is the pool's pull steps: same queue, same job, same decision to post. |
| JobQueueHeap.Queue.Clear | thpool.c:425-436 | Every queued node is pulled once, in order, and dropped; the queue is empty and the bit clear. |
| JobQueueHeap.Queue.AddWork | thpool.c:170-186 | One new node at the rear, nothing else in the queue changes, and the bit is set. |
| PollBackoff.CeilIsNewNano | thpool.c:29 | The macro CEIL of n * 1.01 is the rounded-up quotient of 101 n by 100. |
| PollBackoff.RoundGrows | thpool.c:213-220 | A round keeps tv_nsec in 1..MAX_NANOSEC-1 and lengthens the whole interval across a carry, if and only if it does not land; the ceiling fits a 32-bit int. |
| PollBackoff.RoundIs | thpool.c:213-220 | Past 999999999 a second is carried and the nanoseconds are new_nano - 999999999; at it they are 0; below it they are new_nano. |
| PollBackoff.GrowsLinearly | thpool.c:213-220 | While the seconds stay, k rounds add at least k hundredths of the start. |
| PollBackoff.LandsEarly | thpool.c:213-220 | A first landing happens within 42 rounds of the start or never: traced back, it comes from a value that no round produces. |
| PollBackoff.LeavesIffNotLanded | thpool.c:213-225 | From any interval the loop comes to its break if and only if none of its first 42 rounds lands, and then within sixty thousand rounds. |
| PollBackoff.LandingExample | thpool.c:213-225 | An interval from which the loop never gives up. |
| PollBackoff.StartLeaves | thpool.c:204-225 | From tv_nsec = 1 no round lands: range, strict growth and the break hold without condition. |
| PollBackoff.ExponentialPoll | thpool.c:204-225 | The loop leaves with the interval after its rounds, giving up exactly at the first interval of twenty seconds, and never makes more than sixty thousand rounds. |
| TlvWire.ToBe32 | server_edit.c:114-117 | htonl's bytes are read back by ntohl as the same number. |
| TlvWire.ParseEncodeAll | server_edit.c:122-137 | Any list of frames is read back from its encoding, with nothing left over. |
| TlvWire.ParseMore | tlv_handlers.c:31-260 | The parse of a longer stream extends the parse of a shorter one by the parse of what that left over. |
| TlvWire.ParseBytes | tlv_handlers.c:31-260 | Bytes of the frames and of the rest add up to the bytes of the stream. |
| TlvMachine.FeedBytes | tlv_handlers.c:34-167 | Bytes dispatched, held and lost add up to bytes held before and read; only a completed split header with a header's worth of bytes after it loses any, and then five. |
| TlvMachine.LostOutOfStep | tlv_handlers.c:92-105 | After such a loss the machine disagrees with the parser, whatever the bytes were. |
| TlvMachine.OneRead | tlv_handlers.c:31-260 | After a read the calls made and the state held are those of the parser if and only if the read is admissible. |
| TlvMachine.InStepIffAdmissible | tlv_handlers.c:31-260 | The same over any sequence of reads. |
| TlvMachine.ReadsParse | tlv_handlers.c:31-260 | Over admissible reads the calls are the parse of all their bytes taken together and the state is what the parse leaves over. |
| TlvMachine.FragmentationIrrelevant | tlv_handlers.c:31-260 | Two admissible fragmentations of one stream make the same calls and hold the same state. |
| TlvMachine.SplitInStep | tlv_handlers.c:57-84 | For any split of a header over reads the low byte alone gives the right length if and only if the length is below 256. |
| TlvMachine.SessionWithoutEnd | client.c:64-67 | As long as no read is empty the client's loop is one run of the machine. |
| TlvMachine.SessionRestarts | client.c:61-67 | An empty read drops what is held: the calls after it are those of the later reads alone. |
| TlvFailures.SplitOrderIsSwallowed | tlv_handlers.c:92-105 | An EXECUTE frame for any job up to 2^24, cut anywhere inside its header and then read whole, makes no call; the machine waits for 256 times the job's number of bytes or more. |
| TlvFailures.LateBodyExample | tlv_handlers.c:92-105 | The thirteen bytes of the order for job 1, read as 4 and 9. |
| TlvFailures.SplitLengthIsLowByte | tlv_handlers.c:57-84 | For every frame whose header is read as 4 and 1: its payload is taken to have its length modulo 256 in bytes, and if that is 0 the call is made without it. |
| TlvFailures.LongLengthExample | tlv_handlers.c:57-84 | A registration of 256 bytes that is dispatched with none. |
| TlvAssembler.TlvState.constructor | client.c:59-60 | A state is initialised before its first read. |
| TlvAssembler.TlvState.Init | tlv_handlers.c:12-28 | init_tlv_state holds nothing, whatever was held before. |
| TlvAssembler.TlvState.BeginSplitHeader | tlv_handlers.c:41-49 | A short header leaves its type and no length bytes. |
| TlvAssembler.TlvState.CollectLength | tlv_handlers.c:57-84 | The loop takes as many length bytes as there are; the length kept is the last of them, the upper three having been zero. |
| TlvAssembler.TlvState.TakeHeader | tlv_handlers.c:92-105 | A whole header starts a payload, as the machine between two frames does. |
| TlvAssembler.TlvState.FinishSplitHeader | tlv_handlers.c:50-91 | Lines 50-91 suspend or complete the header as the machine's header state does. |
| TlvAssembler.TlvState.ReachPayload | tlv_handlers.c:41-105 | From any state the read reaches a payload or ends in a header, consuming at least a byte of a new frame. |
| TlvAssembler.TlvState.FillPayload | tlv_handlers.c:107-167 | The payload becomes what was held and the bytes read; r stays within the read and is 0 on suspension. |
| TlvAssembler.TlvState.Dispatch | tlv_handlers.c:170-243 | A call leaves the state idle with the stored length 0, which the next split header relies on. |
| TlvAssembler.TlvState.ReachFrame | tlv_handlers.c:41-167 | One pass up to the dispatch suspends, or completes a frame and consumes at least a byte. |
| TlvAssembler.TlvState.Assemble | tlv_handlers.c:30-260 | The goto loop ends, and its calls, return value and kept fields are those of the machine on the read; r is 0 on every return for known types. |
| TlvAssembler.ProcessReads | client.c:59-67 | The client's read loop makes the calls of the machine over all its reads, starting anew at each empty one. |
| FileTransfer.DeliverEffect | tlv_handlers.c:310-343 | A write empties or creates the named file, a write and an append add the bytes after the name to it, and no other file changes. |
| FileTransfer.NameOfIs | tlv_handlers.c:318-319 | The name is what stands before the first nul of the first ten bytes. |
| FileTransfer.FileStore.HandleFileWrite | tlv_handlers.c:310-326 | The named file becomes the bytes after the name, empty if there are none. |
| FileTransfer.FileStore.HandleFileAppend | tlv_handlers.c:328-343 | The named file, created if missing, grows by the bytes after the name. |
| FileTransfer.ClientHandler | server_edit.c:112-180 | What is written to the socket is the encoding of the chunk frames and the EXECUTE frame: each header announces the payload that follows. |
| FileTransfer.JobFramesSmall | server_edit.c:114-117 | Every frame of the sender has a known type, fewer than 256 bytes and a whole name. |
| FileTransfer.DeliverChunks | tlv_handlers.c:310-343 | After k chunk frames the target holds the first 64 k bytes of the file. |
| FileTransfer.ChunkCount | server_edit.c:112-157 | The number of chunk frames is the length over 64, rounded up. |
| FileTransfer.SmallAdmissible | tlv_handlers.c:92 | For a stream of small frames, reads are admissible if and only if none holds a late body. |
| FileTransfer.TransferCalls | server_edit.c:112-180 | Over any fragmentation without late bodies the client makes exactly the sender's calls; and the fragmentations without them are exactly those that keep it in step. |
| FileTransfer.TransferRebuildsFile | server_edit.c:112-180 | When EXECUTE is dispatched the target equals a non-empty source file, whatever was there before; at every earlier call after the first it is a proper prefix. |
| FileTransfer.EmptyFileLeavesTarget | server_edit.c:112-157 | An empty file sends no file frame and the target stays. |
| JobTransfer.Perform | tlv_handlers.c:184-207 | The callbacks for the calls up to the first order leave the files that these calls amount to. |
| JobTransfer.ReceiveJob | client.c:53-67 | From reads to files: the client's loop and its handlers, up to the first order. |
| JobTransfer.TransferEndToEnd | server_edit.c:112-180 | For every non-empty file, every set of files the client had and every fragmentation without late bodies of what the sender writes, the first order the client sees is the one sent, it is its last call, and at that call the target equals the file and every other file is as it was. |
| JobTransfer.ShipJob | server_edit.c:112-180 | The same of the sender's loop, the read loop and the handlers run one after the other. |
| WireBytes.BigEndian | server_edit.c:115-117 | htonl puts the highest byte first. |
| WireBytes.ChunkBytes | server_edit.c:112-157 | A chunk is the byte 2 for the first and 7 for the others, its length, b.txt in ten bytes and at most 64 bytes of the file. |
| WireBytes.OrderBytes | server_edit.c:161-180 | The order is 5, the length 8, the job and the operation. |
| WireBytes.ResultBytes | tlv_handlers.c:414-429 | The reply is 6, the length 8, the result and the job. |
| WireBytes.RegisterBytes | client.c:85-133 | The registration is 3, four times the number of groups, and the groups. |
| WireBytes.IntsAre | client.c:124-129 | The k-th group stands at byte 4 k of the payload. |
| WireBytes.DispatchedIff | tlv_handlers.c:176-250 | A whole frame is dispatched if its type is one of 1 to 7 and discarded otherwise. |
| Messages.IntBytes | tlv_handlers.c:421-426 | The bytes of any 32-bit int, negative ones too, are read back as it. |
| Messages.BytesOfInt | tlv_handlers.c:444-445 | Any four bytes are those of the int they are read as. |
| Messages.IntsRoundTrip | client.c:124-129 | A list of ints comes back from its bytes. |
| Messages.BytesRoundTrip | tlv_handlers.c:354-360 | A payload of whole ints is the bytes of the list it is read as. |
| Messages.SendGroups | client.c:115-133 | The client's loop fills and sends the registration frame of its groups. |
| Messages.ReadGroups | tlv_handlers.c:345-360 | The loop of Handle_group_id_regs reads each int of the payload, in order. |
| Messages.HandleExecuteJob | tlv_handlers.c:373-428 | The reply is 6, 0, 0, 0, 8, the extreme of the file's numbers for the operation in the order, and its job. |
| Messages.OneReadArrives | server_edit.c:361-379 | Frames of known types that come whole in one read are all dispatched and nothing is held, which is all the server's fresh state needs. |
| Messages.RegistrationArrives | client.c:115-133 | The groups a client names are the groups the server registers it with. |
| Messages.AnswerArrives | tlv_handlers.c:413-445 | A client with a share that is told to execute sends the reply that the protocol has it send, and the server reads back that result and that job. |
| ServerReads.Callback | tlv_handlers.c:208-242 | A call of type 3 is the step Register with the groups of its payload, a call of type 6 the step Reply with its job and result; others leave the tables. |
| ServerReads.ReadClient | server_edit.c:361-379 | One read of a client's socket makes the steps of the calls in it, in order. |
| ServerReads.Join | client.c:115-133 | What a client sends for its groups, read whole, makes the step Register with those groups. |
| ServerReads.Answer | tlv_handlers.c:373-432 | What a client sends when told to execute, read whole, makes the step Reply with the extreme of its numbers. |
| JobTables.HashFunc | client_algo.c:21-25 | The slot of a descriptor below 255000 is the descriptor itself, so different ones have different slots. |
| JobTables.FindFreeGroup | group_algo.c:86-100 | The first group whose status is FREE and whose list is not empty, or -1 if every group is BUSY or empty. |
| JobTables.TakeAndFree | group_algo.c:146-216 | Taking a group sets its job and BUSY; freeing it for that job sets FREE, for another job nothing; no other group changes. |
| JobTables.FreeSlotAt | group_algo.c:193-205 | A client is freed if the slot is its own and names the job; no other slot changes. |
| JobTables.SelectedIff | group_algo.c:118-120 | A client is selected exactly when it is a member, its slot is its own and FREE. |
| JobTables.FreeMembersAre | group_algo.c:104-142 | The selection has exactly the registered free members, each once if the list has. |
| JobTables.FreeMembersInOrder | group_algo.c:124-140 | The selection is the order-preserving sublist: what it takes from a list is what it takes from each part, in order. |
| JobTables.AddThenRemoveClient | client_algo.c:30-84 | A client is added exactly when its slot is empty; adding it again is refused; removing it restores the table. |
| JobTables.MarkBusyAt | group_algo.c:168-189 | Marking makes the chosen registered members busy on the job and changes no other slot. |
| JobTables.SelectThenMark | group_algo.c:104-189 | Selecting and marking agree slot by slot, and selecting again at once finds nobody. |
| JobTables.AddToGroupsAt | group_algo.c:16-43 | Each named group gains the client at its head, and no other group changes. |
| JobTables.RemoveFromGroupsAt | group_algo.c:45-82 | Each named group loses the client, and no other group changes. |
| JobTables.RegisterThenRemove | group_algo.c:16-82 | Registering in distinct groups and removing again restores all 1000 lists, order included, whatever they held. |
| JobTables.WithoutFirst | group_algo.c:53-80 | Removal deletes the first occurrence only and keeps the order of the rest. |
| JobTables.PutGet | job_code.c:128-160 | An update is seen by later lookups of that job, and by no other. |
| JobTables.AddThenGet | job_code.c:8-31 | A new record is found with its initial fields, and hides no other. |
| JobProtocol.Extreme | tlv_handlers.c:481-498 | minimum_of_numbers or maximum_of_numbers: a member that is <= every member for JOB_MIN and >= every member for JOB_MAX. |
| JobProtocol.MarkBusyCounts | server_edit.c:217-221 | Marking adds to the clients busy on the job exactly the number selected, which is what the job record stores. |
| JobProtocol.ReplyLookups | tlv_handlers.c:451-470 | When a reply arrives every lookup succeeds, both job-id guards hold, and one client fewer is outstanding. |
| JobProtocol.ReplyCompletesLast | tlv_handlers.c:464-500 | A reply completes its job if and only if it is the last outstanding one, with the extreme of all replies; other records stay. |
| JobProtocol.NextKeeps | server_edit.c:185-311 | Every step keeps the protocol's invariant. |
| JobProtocol.ReachableInv | server_edit.c:185-311 | The invariant holds in every reachable state. |
| JobTheorems.ReplyConservation | tlv_handlers.c:435-503 | Replies recorded and clients busy on a job add up to its number_of_clients while it is in progress; outside that nobody is busy on it. |
| JobTheorems.CompletesOnLastReply | job_code.c:162-198 | Completion fires exactly once, on the last outstanding reply, and on no other step. |
| JobTheorems.RecordsMoveForward | job_code.c:128-231 | Status moves NOT_STARTED, IN_PROGRESS, COMPLETE only, by the step that is about the job; id and operation never change. |
| JobTheorems.IdsDecrease | job_code.c:8-31 | Ids strictly decrease from the head, so the walk of every lookup finds a record where it stands. |
| JobTheorems.ExclusiveAssignment | server_edit.c:292-311 | Unfinished jobs have distinct groups, a group is busy exactly when its job_id names an unfinished job, and a busy client works on one job in progress. |
| JobTheorems.CompletionFreesItsGroup | group_algo.c:208-216 | At completion the guard holds and frees the group the job took and no other; of the clients only the sender is freed. |
| JobTheorems.BusyClientCanReply | tlv_handlers.c:435-455 | A busy client always holds a share of its job, so its reply is an enabled step. |
| JobRuns.RegisterStep | tlv_handlers.c:361-362 | A registration puts the client at the head of each named group and fills its slot; nothing else changes. |
| JobRuns.StartJobStep | server_edit.c:298-301 | The new record is the next number with the operation asked for, not started, result -1; the data set is kept under that number. |
| JobRuns.StartJobTakes | server_edit.c:298-301 | The group taken is the first that is FREE and has a member, and it alone changes. |
| JobRuns.AssignStep | server_edit.c:217-221 | The record gets the group and the number of clients and is in progress; exactly the free members become busy on it. |
| JobRuns.AssignShares | server_edit.c:223-283 | The i-th free client is given the i-th stretch of floor(L / s) lines. |
| JobRuns.ReplyStep | tlv_handlers.c:446-452 | The value is appended to the job's results and the sender alone is freed. |
| JobRuns.JobIsAsStarted | server_edit.c:292-311 | In every run job number n is listed if and only if n jobs have been started, with the operation and data set of the n-th start and, as results, the values of the replies to it in order. |
| JobRuns.AnswerToStart | tlv_handlers.c:464-500 | The result of a completed job is one of the first s * floor(L / s) lines its start was given and, for the operation 1 <= and for 2 >= each of them; s is the number of replies, and these are all lines if s divides L. |
| JobRuns.WholeJob | server_edit.c:185-311 | For every client, group, operation and non-empty data set there is a run that registers, starts, assigns, replies and ends with its minimum or maximum. |
| JobProgress.StartableIff | group_algo.c:86-100 | A job can be started exactly when it asks for 1 or 2 and some group is FREE and has a member. |
| JobProgress.RegistrableIff | client_algo.c:30-59 | A client can be registered exactly when its slot is empty and its groups exist and differ. |
| JobProgress.AssignableIff | server_edit.c:217-221 | In every reachable state a group can be assigned if and only if it is busy with a job not started, a member is free and the data set has a line for each free member; every lookup then succeeds. |
| JobProgress.CompletesAfterOutstanding | tlv_handlers.c:464-500 | In every run from a state in which a job is assigned, it is complete exactly when the run has had as many replies to it as were outstanding, and no run has more. |
| JobProgress.CanComplete | tlv_handlers.c:435-503 | From every such state a run of exactly that many replies, and nothing else, completes it. |
| JobTheorems.SharesCover | server_edit.c:223-234 | The chunks, one after the other, are exactly the first s * floor(L / s) lines, for s distinct clients. |
| JobTheorems.FinalAnswer | tlv_handlers.c:464-500 | For any order of replies the completed result is one of those lines, <= each for JOB_MIN and >= each for JOB_MAX, and they are the whole data set when s divides L. |
| JobTheorems.WholeIffDivides | server_edit.c:231-234 | The answer is right for every data set of L lines if and only if s divides L. |
| GroupLists.ClientTable.constructor | client_algo.c:5-17 | Every slot starts unregistered and free. |
| GroupLists.ClientTable.AddClient | client_algo.c:30-59 | The slot is filled and 0 returned, or it was taken, nothing changes and -1 is returned. |
| GroupLists.ClientTable.RemoveClient | client_algo.c:63-84 | The slot is emptied and 0 returned, or it is another's, nothing changes and -1 is returned. |
| GroupLists.ClientTable.UpdateClientStatusToFree | group_algo.c:193-205 | The slot becomes free only if it is the client's and names the job. |
| GroupLists.GroupTable.constructor | group_algo.c:3-14 | Every group starts free, without a job and empty. |
| GroupLists.GroupTable.ListsShareNothing | group_algo.c:16-82 | In every valid table no node stands in two lists nor twice in one. |
| GroupLists.GroupTable.AddAClientToGroups | group_algo.c:16-43 | The linked lists change as the table of values does; new nodes are new. |
| GroupLists.GroupTable.RemoveClientFromGroups | group_algo.c:45-82 | Likewise for removal: the lists stay acyclic and disjoint, those not named keep their contents, and no node is made. |
| GroupLists.GroupTable.FindFreeGroup | group_algo.c:86-100 | The scan returns the first group that is FREE and has a member, or -1 if every group is BUSY or empty. |
| GroupLists.GroupTable.FindFreeClients | group_algo.c:104-142 | The counting walk and the collecting walk agree: an array of exactly the free members, in list order. |
| GroupLists.GroupTable.UpdateGroupWithJobAssigned | group_algo.c:146-151 | That group names the job and is busy; no other row changes. |
| GroupLists.GroupTable.IsClientPresent | group_algo.c:153-164 | True exactly for the members of the array. |
| GroupLists.GroupTable.UpdateClientWithJobAssigned | group_algo.c:168-189 | The walk marks the slots of the picked members. |
| GroupLists.GroupTable.UpdateGroupStatusToFree | group_algo.c:209-216 | The group is freed only if it names the job. |
| GroupLists.Unlink | group_algo.c:53-80 | The list loses its first node that holds the client, if any, and stays a list. |
| JobListHeap.JobList.AddJob | job_code.c:8-31 | The new record is the head, the old list its tail. |
| JobListHeap.JobList.Walk | job_code.c:84-93 | The walk stops at the first record with the id. |
| JobListHeap.JobList.GetGroupIdFromJob | job_code.c:73-100 | The group of that record, -1 for an empty list. |
| JobListHeap.JobList.GetJobOpFromId | job_code.c:101-127 | The operation of that record, -1 for an empty list. |
| JobListHeap.JobList.UpdateJobStatusAndGroup | job_code.c:128-160 | That record is in progress with this group and number of clients; no other changes. |
| JobListHeap.JobList.TimeToComputeFinalResult | job_code.c:162-198 | True exactly when the record's number of clients is reached, and, since -1 is a true bool, for an empty list. |
| JobListHeap.JobList.UpdateJobStatusToCompleted | job_code.c:200-231 | That record is complete with the result; no other changes. |
| JobServer.Server.constructor | client_algo.c:5-17 | The initialised tables are an initial state of the protocol. |
| JobServer.Server.HandleGroupIdRegs | tlv_handlers.c:361-362 | On the heap tables a registration is the protocol's step Register. |
| JobServer.Server.JobAddition | server_edit.c:292-301 | job_addition is the protocol's step StartJob, on the first available group. |
| JobServer.Server.SplitAmong | server_edit.c:223-283 | The array is filled in place with client i's socket and its floor(L / s) lines. |
| JobServer.Server.AssignClients | server_edit.c:185-283 | multicast_Group_Handler is the protocol's step Assign, and hands each chosen client its share. |
| JobServer.Server.HandleResult | tlv_handlers.c:434-503 | Handle_result is the protocol's step Reply. |

## Left out

Assumptions of the pool:
- Reads and writes are sequentially consistent; every job that is started ends; there is one pool, since `threads_keepalive` is shared by the whole file (thpool.c:31, 119, 240). `len` and the counters are unbounded integers.
- The pool is destroyed only between `thpool_init` and no other call running; a call that overlaps would use freed memory.
- PoolTermination.ShutdownEnds: assumes that the workers come to rest while thpool_destroy sleeps. Without that the scheduler may let it broadcast for ever and never run a worker.
- PoolDraining.DrainsWithin: counts no spurious wake-ups, which could go on for ever; nor does the end of a shutdown.
- JobQueueHeap.BinarySemaphore.Post: only the bit is on the heap; the mutex, the condition variable and the signal are in the pool's steps.
- JobQueueHeap.BinarySemaphore.constructor: likewise for what `bsem_init` initialises.
- `thpool_pause`, `thpool_resume`, `thread_hold`: signal handlers. malloc failures and the memory of the pool's own mutexes.

The sleep of `thpool_wait`:
- PollBackoff.CeilIsNewNano: the multiplier is exactly 101/100; the rounding of the double 1.01 is not modelled. The first and last loops of `thpool_wait` and the clock are left out.

The reassembler and the transfer:
- TlvAssembler.TlvState.Assemble: an unknown type stops the model at DISCARDING; the source sets `r` to 0 and goes over the same buffer again with freed data (tlv_handlers.c:245-252). The sizes given to realloc at lines 110 and 147 leave out `c` and are read as including it. The host is little-endian.
- A failed read (-1) given to `assemble_tlv`, and RESULT and EXECUTE payloads of fewer than 8 bytes, past which the handlers read. `Handle_file_write` and `Handle_file_append` read past a payload that has neither ten bytes nor a nul; such a payload is outside.
- Messages.ReadGroups: a payload that is not a whole number of ints is outside, since there the source runs past its buffers.
- A machine with these lines repaired; it would be the intended design, not this code.
- The transport itself: sockets, epoll, partial writes. A fragmentation is any way of cutting the bytes.

The job protocol:
- Each handler is one step; the code takes no lock around the tables, so handlers that overlap are not covered.
- JobProtocol.NextKeeps: a step is taken only as its callers see to it: a client registers once, with distinct groups in range; a job starts when a group is free, since `job_addition` would index with -1 otherwise; it is assigned once, when its group has a free client and the data set a line for each, since with none the source reads an array it never set and with fewer lines `split` is asked for 0; each busy client replies once, with the extreme of its share.
- No client leaves during a job: `timer_handler`, eviction and thread cancellation, which do not update the group lists.
- JobListHeap.JobList.Walk: requires that the job is listed; the source follows a null pointer past the end. Every lookup a handler makes is shown to meet this.
- GroupLists.GroupTable.AddAClientToGroups: `num_of_clients` is counted but nothing is claimed of it, since removal never lowers it (group_algo.c:30-31).
- `hash_func` of a negative descriptor, which `accept` does not hand to these functions.
- `arguments` in `job_addition` lies on the caller's stack while the pool job still uses it (server_edit.c:295-307); the model gives the job its own copy. File names, the numeric suffixes and the copying of 15 characters of the data set's name.
- `popen`, `system`, `split`, `wc`, `dlopen` and libminmax are their specifications: contiguous pieces of equal length, a line count, the extreme of a list. `Result_<id>` is a list of lines that no earlier run left behind.
- ServerReads.ReadClient: the server starts each read with a fresh state, so what a read cuts off is lost; a read that ends inside a frame makes the calls before it only.
- ServerReads.Callback: the file and execute handlers, which a client has no cause to call on the server, are taken not to touch the tables.
- JobServer.Server.AssignClients: the clients' chunk files are lists of numbers; their text is not modelled.

Other parts of the program:
- The shell reads commands and calls `job_addition`, which is where the model begins; the displays and `DumpRawBytes` only print.
- Keep-alive messages are frames like any other to the reassembler; their handler does nothing.
- `get_num_client`, `remove_job` and `add_client_msg` are not called by the handlers of the job protocol.
- `client_edit.c` is a variant of `client.c` that calls the same reassembler and handlers.

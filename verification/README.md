# Vineyard: a verified model of its client protocols

A Dafny model of the parts of vineyard where correctness rests on a protocol rather than on
one function: the shared-memory client, the RPC bulk transfers, the message framing, the
thread groups, the JSON conversion of the Python bindings, and the bracket matcher and
preprocessor tracker of the linter that the repository carries.

Each module follows the form of the code it models. Code that updates fields or buffers in
place is a class or a method with loops, proved against a specification function; the
properties are then proved of that function, or of all runs. The concurrent components are
state machines whose steps are the atomic steps of the threads, and the theorems hold for
every interleaving.

The surroundings appear as stated contracts: a socket delivers bytes in order and in pieces of
its own choosing; the kernel hands out mappings that do not overlap; the RDMA device registers
and grants any part of what it is asked for; the server hands out new ids and keeps what it is
given; other clients change the server between our steps, within what this client holds. Loops that
retry for as long as the environment refuses carry a number of attempts, and end as `Stalled`
when it is used up.

| module | models |
|---|---|
| `ThreadGroup` | the fixed worker pool: mutex, condition variable, queue, destructor |
| `DynamicThreadGroup` | the pool that starts a thread for each task: handle tables, joins, destructor |
| `ParallelFor` | `parallel_for` and its wrapping atomic counter |
| `SharedMemory`, `Segments` | file-descriptor passing, mapping, and the pointer-to-blob index |
| `Usage` | the reference-count cache |
| `Plasma` | the payload cache of the plasma client, with the server's store |
| `ShallowCopy` | the memoised rebuilding of a metadata tree |
| `Framing`, `Compression` | length-prefixed messages over short reads and writes; compressed blobs on top |
| `Rdma` | the windowed bulk transfer |
| `Brackets`, `BracketText`, `Preprocessor` | the linter's bracket matchers, the grammar of what they match, and its `#if` stack |
| `PyJson` | JSON to Python and back |
| `Tally`, `Common` | sums over sequences, and the vocabulary shared by the modules |

## Where the code and the expected property part

In these cases the property one would expect does not hold for all inputs. The model keeps the
code's behaviour, and the exact condition is proved, but for the inverse property of the bracket
matchers, whose condition is sufficient.

- A `ThreadGroup` without workers accepts tasks and never runs them (`ThreadGroup.DestructorRunsEveryTask`,
  `ThreadGroup.IdlePoolLosesTask`).
- A `DynamicThreadGroup` bounds unfinished tasks, not threads: the threads that have not ended are
  bounded if and only if there are no callers or the parallelism is zero, so that none ever starts
  (`DynamicThreadGroup.ThreadsBoundedIff`).
- `parallel_for` calls each index once if and only if the wrapped counter still reads as out of
  range (`ParallelFor.CorrectIffWrapHarmless`).
- `CreateBuffers` receives descriptors in ascending order and binds them in payload order; every
  file gets its own descriptor if and only if the new files come in ascending order
  (`SharedMemory.Session`).
- Fetching an object and releasing it restores the reference counts if and only if the blobs the
  server has lost come last in id order and the first of them was not in use (`Usage.UsageTracker.UseThenRelease`).
- `ClearCache` sends a waiting deletion while the id is still in use, if it is; the last release
  sends it when the id is not (`Usage.DeletionsAreDeferred`).
- `ShallowCopy` succeeds if and only if the root is not a blob and every blob is on the client's own
  instance; otherwise the server refuses the metadata of a blob and the call throws
  (`ShallowCopy.Copier.ShallowCopy`).
- A named plasma object that is created and then sealed is read back as the server has it if and only
  if the client held the id already or the server did not have it (`Plasma.CreatedThenSealed`, which
  also decides the two ids of the empty blob; `Plasma.TakenNameIsReadWrongly`).
- The plasma cache answers as the server would, except for the empty string, once this client has itself
  created the empty blob, sealed it and fetched it; exactly when is decided
  (`Plasma.PlasmaClient.GetPayloads`, `Plasma.SealedEmptyStrays`).
- `CloseExpression` asked about a `<` that follows another `<` or the word `operator` answers with the
  end of the next bracket instead (`Brackets.ClosingPairs`, `Brackets.ShiftIsAnsweredLater`), and
  `ReverseCloseExpression` asked about the `>` of an operator with the start of the one before
  (`Brackets.OpeningPairs`, `Brackets.ArrowIsAnsweredEarlier`).
- The two matchers are inverse where they read the angle brackets alike; a `>` that one of them takes for
  part of an operator and the other does not breaks it (`Brackets.MatchersAreInverse`,
  `Brackets.ComparisonIsReadApart`).
- `recv_message` cannot take a message of 2^64 - 1 bytes, and refuses no other (`Framing.Converse`).
- The receiver of a compressed blob stops at the end of its frames if and only if the last frame is
  needed to complete the blob, or is the only one (`Compression.AlignedIffLastFrameCounts`).
- JSON integers of 2^63 and more come back from Python as negative numbers
  (`PyJson.ThereAndBackIffFits`).

## Model

| member | source | states |
|---|---|---|
| ThreadGroup.StepInv | modules/llm-cache/thread_group.cc:34-71 | every atomic step of a caller, a worker or the destructor keeps the invariant: first-in-first-out queue, each taken task in one pair of hands or run, each task id drawn accepted, refused or with its caller, nothing refused before the stop, exact running counter, no lost wake-up, shutdown order |
| ThreadGroup.ReachableInv | modules/llm-cache/thread_group.cc:28-71 | the invariant holds in every state that any interleaving of any number of callers and workers reaches |
| ThreadGroup.EachTicketInExactlyOnePlace | modules/llm-cache/thread_group.h:75-86 | in every reachable state each task id drawn is accepted, refused or in the hands of the caller that drew it, exactly one of these; until the pool is stopped, accepted or in its hands |
| ThreadGroup.EachTaskInExactlyOnePlace | modules/llm-cache/thread_group.h:75-86 | in every reachable state an accepted task occurs exactly once over the queue, the workers' hands and the runs, and a task not accepted occurs nowhere |
| ThreadGroup.NoTaskHeldTwice | modules/llm-cache/thread_group.cc:42-50 | two workers never hold the same task |
| ThreadGroup.DestructorRunsEveryTask | modules/llm-cache/thread_group.cc:57-71 | when the destructor has returned, the runs are the accepted tasks, each once, if and only if there is a worker or nothing was accepted; with a worker, every task id ever drawn has been run once, or was refused, or is still in its caller's hands |
| ThreadGroup.PushedRunsIffNotStopped | modules/llm-cache/thread_group.h:75-84 | a task whose caller takes the lock has been run, once, when the destructor has returned, if and only if the pool was not stopped at that point |
| ThreadGroup.SpinEndsIffNoneRuns | modules/llm-cache/thread_group.cc:63-65 | the destructor stops spinning exactly when no worker is inside a task |
| ThreadGroup.IdlePoolLosesTask | modules/llm-cache/thread_group.cc:33-71 | a pool without workers accepts a task, is destroyed, and has not run it |
| ThreadGroup.NoLostWakeup | modules/llm-cache/thread_group.cc:38-46 | a non-empty queue always has a worker awake or a notification still owed, and after the destructor's `notify_all` no worker sleeps |
| ThreadGroup.StoppedStepDecreases | modules/llm-cache/thread_group.cc:57-71 | once stopped, every step lowers a measure of the work left, except a load of the spinning destructor that finds a task running and an `AddTask` that is refused at once, which change nothing |
| ThreadGroup.StoppedCanMove | modules/llm-cache/thread_group.cc:63-70 | until the destructor has returned some thread can step, so neither the spin nor the joins deadlock |
| ThreadGroup.ShutdownIsBounded | modules/llm-cache/thread_group.cc:57-71 | under any schedule, however often the destructor spins, a stopped pool changes its state at most the measured number of times |
| ThreadGroup.DestructorReturns | modules/llm-cache/thread_group.cc:57-71 | from every stopped reachable state the destructor's end can be reached |
| DynamicThreadGroup.StepInv | modules/llm-cache/thread_group.h:125-173 | every step keeps: who holds the mutex, where each handle is, fresh ids, shutdown order, the allowance of callers past the probe, the live count |
| DynamicThreadGroup.ReachableInv | modules/llm-cache/thread_group.h:125-173 | that invariant holds in every reachable state |
| DynamicThreadGroup.EachHandleInExactlyOnePlace | modules/llm-cache/thread_group.h:150-171 | a started thread's handle is in exactly one of the caller's critical section, `threads_`, `finished_threads_` and joined, and a wrapper that has the lock finds its entry with `at` |
| DynamicThreadGroup.DestructorJoinsEveryThread | modules/llm-cache/thread_group.cc:96-107 | when the destructor has returned, every thread ever started is joined |
| DynamicThreadGroup.TaskStartsIffNotStopped | modules/llm-cache/thread_group.h:163-171 | a caller past the probe that takes the lock gets its thread, ended and joined when the destructor has returned, if and only if the group was not stopped at that point |
| DynamicThreadGroup.LiveTasksBounded | modules/llm-cache/thread_group.h:131-171 | with k callers at most parallelism + k - 1 tasks are unfinished at any time |
| DynamicThreadGroup.EndingThreadsAreUnbounded | modules/llm-cache/thread_group.h:131-156 | for every parallelism and number of callers above zero and every n, some reachable state has n threads that have handed in their handle and not ended |
| DynamicThreadGroup.ThreadsBoundedIff | modules/llm-cache/thread_group.h:131-156 | the threads that have not ended are bounded over all reachable states if and only if the parallelism is zero or there are no callers |
| DynamicThreadGroup.LockHolderCanMove | modules/llm-cache/thread_group.h:131-139 | whoever holds the mutex can go on, or is joining a thread that can end without it |
| DynamicThreadGroup.AdvanceDecreases | modules/llm-cache/thread_group.cc:96-107 | once stopped, every advancing step lowers a measure |
| DynamicThreadGroup.StoppedCanAdvance | modules/llm-cache/thread_group.cc:96-107 | until the destructor has returned an advancing step is possible |
| DynamicThreadGroup.DestructorReturns | modules/llm-cache/thread_group.cc:96-107 | from every stopped reachable state the destructor's end can be reached |
| ParallelFor.HarmlessRun | modules/basic/utils.h:36-56 | with harmless wrap-around, in every interleaving no index is called twice or out of range, every complete run calls each index once, and all runs have the same number of steps |
| ParallelFor.CounterBounded | modules/basic/utils.h:40-43 | the shared counter never exceeds num + (parallelism + 1) * chunk, and stays below it for a non-empty range |
| ParallelFor.HarmfulRun | modules/basic/utils.h:40-50 | without it, no run ends with each index called once |
| ParallelFor.CorrectIffWrapHarmless | modules/basic/utils.h:27-57 | some run ends with each index called once if and only if wrap-around is harmless, and then every run that ends does |
| ParallelFor.CallCorrectIffWrapHarmless | modules/basic/utils.h:27-57 | the same of the call as made: a given chunk is used as it is, and the default is the smallest chunk with which the threads cover the range |
| ParallelFor.RoomIsHarmless | modules/basic/utils.h:40-44 | num + parallelism * chunk within 2^64 is enough |
| ParallelFor.DefaultChunkIsHarmless | modules/basic/utils.h:33-35 | the default chunk is harmless whenever 2 * num + parallelism is within 2^64 |
| ParallelFor.HugeChunkIsHarmful | modules/basic/utils.h:40-44 | two threads with a chunk of 2^63 are not |
| ParallelFor.WrappedIsRemainder | modules/basic/utils.h:40-44 | the wrapping used throughout is the remainder modulo 2^64 |
| SharedMemory.NewFdsAreNew | src/client/client.cc:1550-1562 | the predicted descriptors are distinct, unknown, and exactly the unknown files of the payloads |
| SharedMemory.AsSetSorts | src/client/client.cc:668-677 | collecting descriptors in a `std::set` keeps the same ones, ascending |
| SharedMemory.AsSetIsIdentityIff | src/client/client.cc:668-677 | and keeps their order if and only if it was ascending |
| SharedMemory.Server.SendForGet | src/server/async/socket_server.cc:560-600 | the descriptors sent for a read are the files not sent before, in first-occurrence order |
| SharedMemory.Server.SendForCreate | src/server/async/socket_server.cc:437-476 | those sent for a creation are the same, in ascending order |
| SharedMemory.Client.RecvFd | src/client/client.cc:1512-1516 | the next descriptor in flight; or failure, which may have dropped one |
| SharedMemory.Client.EnterFile | src/client/client.cc:1508-1520 | an unknown file takes one descriptor, gets one entry bound to it and is added to the history of receptions; a known one takes none; a failed reception adds no entry |
| SharedMemory.Client.MapFile | src/client/client.cc:1521-1536 | the mapping for the mode asked for; no mapping moves, and mappings of different files do not overlap |
| SharedMemory.Client.Mmap | src/client/client.cc:1508-1537 | both together |
| SharedMemory.Client.PredictForGet | src/client/client.cc:812-816 | the list that `PreMmap` builds is the unknown files in first-occurrence order |
| SharedMemory.Client.PredictForCreate | src/client/client.cc:668-677 | the set that `CreateBuffers` builds is those, ascending |
| SharedMemory.Client.MapOne | src/client/client.cc:1539-1548 | a non-empty payload is mapped and entered in the index at its address; an empty one changes nothing |
| SharedMemory.Client.MapPayloads | src/client/client.cc:828-842 | the loop of `Mmap` receives exactly the predicted files in order, binds the k-th unknown file to the k-th descriptor, and enters every non-empty payload in the index, in order |
| SharedMemory.Client.GetBuffers | src/client/client.cc:793-844 | a mismatch is reported exactly when the server announced other descriptors than predicted; otherwise as `MapPayloads` |
| SharedMemory.Client.GetBufferSizes | src/client/client.cc:967-1009 | the same, and the sizes of the payloads |
| SharedMemory.Client.CreateBuffers | src/client/client.cc:651-705 | the same over sets, after the checks of number and sizes, with the reply's sizes cast to `size_t`; a reply that fails them changes nothing |
| SharedMemory.AddressResolvesToLast | src/client/client.cc:828-839 | after the calls a payload's address resolves to the last payload entered with the same file and offset, so to itself when those differ |
| SharedMemory.GetThenExists | src/client/client.cc:793-844 | after a read `Exists` at the base of the payload's file plus its offset answers the id of the last payload with the same file and offset, so its own when no later one shares them |
| SharedMemory.AddressesDiffer | src/client/client.cc:1544-1546 | two payloads have the same address if and only if they have the same file and offset |
| SharedMemory.BindingsFollowOrder | src/client/client.cc:828-837 | after a reception every file is bound to its own descriptor if and only if the descriptors came in first-occurrence order |
| SharedMemory.GetExchange | src/client/client.cc:793-844 | a read against the server never mismatches, leaves the queue empty and both ends in agreement, and binds rightly |
| SharedMemory.CreateExchange | src/client/client.cc:651-705 | a creation does the same, but binds rightly if and only if its new files come in ascending order |
| SharedMemory.Session | src/client/client.cc:651-1009 | over any sequence of reads, size queries and creations: no file is received and entered twice, even when a call fails; on success no mismatch, an empty queue, agreement, the files received are exactly the newly known ones, and right binding if and only if every creation met its new files in ascending order |
| SharedMemory.DescendingFilesAreSwapped | src/client/client.cc:668-697 | two new files in descending order are sent in the other order than they are mapped |
| Segments.PutKeepsOrder | src/client/client.cc:1544-1546 | assignment keeps the index in order of address and adds only the new entry |
| Segments.PutThenLookup | src/client/client.cc:1544-1546 | a lookup after an assignment finds the new entry at its address and the old ones elsewhere |
| Segments.UpperBound | src/client/client.cc:1592-1592 | the position that separates the entries at or before the target from those after it |
| Segments.Exists | src/client/client.cc:1574-1634 | true if and only if a blob with a valid id starts exactly at the target, and then with that id |
| Usage.UsageTracker.FetchOnLocal | src/client/client.cc:1637-1652 | succeeds if and only if the id is in use and sealed; absent and unsealed are told apart |
| Usage.UsageTracker.SealUsage | src/client/client.cc:1655-1664 | marks an entry in use as sealed, and nothing else |
| Usage.UsageTracker.AddUsage | src/client/client.cc:1667-1674 | a new entry starts at one use, an old one keeps its payload and gains one |
| Usage.UsageTracker.RemoveUsage | src/client/client.cc:1677-1719 | one use less; the last use drops the entry, sends one release request and carries out a pending deletion; an absent id is an error and changes nothing |
| Usage.UsageTracker.DeleteUsage | src/client/client.cc:1682-1690 | drops the entry and sends nothing |
| Usage.UsageTracker.FetchAndModify | src/client/client.cc:1699-1710 | changes one count and reports it, or reports that the id is absent |
| Usage.UsageTracker.PreDelete | src/common/util/lifecycle.h:68-77 | a deletion of an id in use is deferred |
| Usage.UsageTracker.ClearCache | src/client/client.cc:1693-1696 | carries out the deferred deletions, then forgets all entries |
| Usage.UsageTracker.UsePayloads | src/client/client.cc:828-842 | one use of every payload of a reply |
| Usage.UsageTracker.Release | src/client/client.cc:909-922 | one use less of each blob in id order up to the first failure, with the failing status |
| Usage.CountsSinceInsertion | src/client/client.cc:1667-1719 | at every point of every run an entry's count is at least one and equals increments less decrements since the operation that inserted it; it has been in use ever since |
| Usage.ReachableIsCounted | src/client/client.cc:1667-1719 | so no entry in use has a count below one |
| Usage.ReleasesSent | src/client/client.cc:1713-1719 | the release requests sent for an id are exactly the steps that took it from one use to none |
| Usage.UsesArePaidBack | src/client/client.cc:1667-1719 | each time an id comes into use is matched by one release request, one drop without a request, or its being in use still |
| Usage.DeletionsAreDeferred | src/common/util/lifecycle.h:43-86 | every deletion asked for is sent once or still waits; it is sent with the last release, when the id is not in use, or by `ClearCache`, when the id is in use exactly if it was before |
| Usage.ClearDeletesInUse | src/client/client.cc:1693-1696 | an id used once, marked and cleared is deleted with one use left |
| Usage.RestoredIff | src/client/client.cc:172-190 | releasing after a fetch gives the entries back if and only if the blobs lost by the server come last and the first of them was not in use; in particular when none is lost |
| Usage.UsageTracker.UseThenRelease | src/client/client.cc:909-922 | the same of the two calls themselves, unless the server refuses a release |
| Usage.LostBlobIsReleased | src/client/client.cc:909-922 | a lost blob that another object uses loses that use |
| Plasma.StepKeepsAgree | src/client/client.cc:1208-1284 | sealing, fetching, releasing and whatever other clients do keep the cache in agreement with the server; a creation does if and only if it is clean: of a name that is free, with a size, or of an id already held, or of the empty blob with size zero |
| Plasma.RunAgreesIffClean | src/client/client.cc:1208-1284 | in every run, with any creations, the cache agrees with the server throughout if and only if every creation was clean when it was made |
| Plasma.AskMeans | src/server/memory/memory.cc:276-302 | the server refuses if and only if a requested object is unsealed and the request is safe, and otherwise answers exactly the known ids |
| Plasma.SplitAnswers | src/client/client.cc:1304-1327 | asking for the uncached ids and adding the cached payloads gives the same refusal as asking for all, and the same map unless the empty string is answered from the cache alone |
| Plasma.PlasmaClient.GetPayloads | src/client/client.cc:1291-1328 | for all ids: the status is that of asking the server for every id; the payload map is the same under every key but the empty string, and under that one too if and only if the request is not a stray one; every payload is one the server has, sealed exactly if it is sealed there |
| Plasma.PlasmaClient.GetBuffers | src/client/client.cc:1335-1360 | besides, each payload is used once more, no other entry changes, and the cache still agrees |
| Plasma.PlasmaClient.Seal | src/client/client.cc:1208-1219 | seals on the server first, then in the cache; the agreement stays |
| Plasma.PlasmaClient.CreateBuffer | src/client/client.cc:1235-1283 | the new state for any id and size; the agreement is kept if and only if the creation is clean |
| Plasma.CreatedThenSealed | src/client/client.cc:1208-1283 | for every id and size, a creation followed by a seal is read back as the server has it if and only if a condition on the cache and the store holds: for a name, that the client held it or the server did not have it |
| Plasma.TakenNameIsReadWrongly | src/server/memory/memory.cc:770-793 | a name that the server has, created again and sealed, is read back with another block than the server's |
| Plasma.StrayNeedsSealedEmpty | src/client/client.cc:1208-1328 | in every run with clean creations, no request strays unless this client has sealed the empty blob |
| Plasma.SealedEmptyStrays | src/client/client.cc:1208-1360 | creating, sealing and fetching the empty blob makes a request for the empty string stray |
| ShallowCopy.Copier.CreateMetaData | src/server/server/vineyard_server.cc:457-484 | a new id, under which the tree is stored; the metadata of a blob is refused and nothing changes |
| ShallowCopy.Copier.CopyFields | src/client/client.cc:1088-1105 | succeeds if and only if no blob would have to be created; the fields then have the source's keys in order and its values, with every member that is no kept blob replaced by the tree stored under its new id; nothing mapped or stored before changes in any case |
| ShallowCopy.Copier.Reconstruct | src/client/client.cc:1086-1111 | succeeds if and only if neither the object nor any member to be created is a blob; creates one object whose tree is the image of the source's under the mapping |
| ShallowCopy.Copier.NewIdOf | src/client/client.cc:1090-1099 | a member's new id: looked up, or rebuilt once and remembered; fails if and only if a blob would have to be created |
| ShallowCopy.Copier.ShallowCopy | src/client/client.cc:1061-1116 | succeeds if and only if the root is not a blob and every blob is on this instance; every object of the source is then stored under its new id with the same keys in order, the same values, the same blobs, and each other member the tree stored under its new id; the renaming is injective, shared objects stay shared, and each distinct object that is not a blob is created exactly once; a failed copy overwrites nothing |
| ShallowCopy.CopyableIffCreatable | src/client/client.cc:1086-1111 | the root is not a blob and all blobs are on this instance if and only if nothing that has to be created is a blob |
| ShallowCopy.RemoteBlobIsRefused | src/server/server/vineyard_server.cc:465-465 | a tree with a blob of another instance, and a blob as the root, cannot be copied |
| ShallowCopy.ImageIsUndone | src/client/client.cc:1086-1111 | renaming the copy back gives the source with its created objects on this instance, and the source itself when they were there |
| ShallowCopy.ImageIsStable | src/client/client.cc:1090-1099 | once all members are mapped, later additions to the mapping do not change an image |
| ShallowCopy.NotInItself | src/client/client.cc:1094-1097 | an object does not occur among its own members, so `emplace` never meets its own id |
| ShallowCopy.BuffersAreBlobs | src/client/ds/object_meta.cc:345-376 | the buffer set holds exactly the ids of the tree's blobs on this instance |
| ShallowCopy.LocalIffKept | src/client/ds/object_meta.cc:355-365 | a blob of the tree is in the buffer set if and only if it is on this instance |
| Framing.NumberOfBytes | src/client/io.cc:196-198 | reading a written length word gives the length |
| Framing.BytesOfNumber | src/client/io.cc:313-315 | writing a read length word gives the bytes |
| Framing.SendBytes | src/client/io.cc:165-194 | on every schedule of short writes and retries the bytes taken are a prefix of the data, and all of it on success |
| Framing.RecvBytes | src/client/io.cc:253-310 | on every schedule of short reads and retries the front of the stream moves into the front of the buffer, exactly `length` bytes on success |
| Framing.SendMessage | src/client/io.cc:196-201 | on success the stream has gained one frame |
| Framing.RecvMessage | src/client/io.cc:313-320 | on success one frame has been taken, and the string is the message and a zero byte; a length of 2^64 - 1 is the only one out of range |
| Framing.SendAll | src/client/io.cc:196-201 | on success the stream has gained the frames of the messages, in order |
| Framing.RecvAll | src/client/io.cc:313-320 | some frames have been taken off the front of the stream, each string being its message and a zero byte; on success that many |
| Framing.FramesAreUnique | src/client/io.cc:196-201 | a stream determines the messages at its front and where they end |
| Framing.Converse | src/client/io.cc:165-320 | any messages sent are received in order, each with one zero byte, and the reader stops at the end of the last frame; the receiver finds a length out of range only if a message has 2^64 - 1 bytes, and then never completes |
| Compression.CompressAndSend | src/client/rpc_client.cc:428-441 | on success the stream has gained the frames of the non-empty chunks, in order |
| Compression.SkippingLosesNothing | src/client/rpc_client.cc:433-440 | no chunk sent is empty, and together they are the bytes pulled |
| Compression.SkippingDecodesAlike | src/client/rpc_client.cc:433-440 | to a codec that ignores empty frames, what is sent decodes as all that was pulled |
| Compression.RecvFrame | src/client/rpc_client.cc:449-454 | takes one frame off the stream; aborts only if it announces more than the decompressor's buffer holds |
| Compression.FillFrom | src/client/rpc_client.cc:456-465 | the decoded bytes extend the buffer in order until it is full or the frame is used up |
| Compression.TakeFrame | src/client/rpc_client.cc:449-475 | one turn of the outer loop: one frame taken, all it decodes to in the buffer; aborts only if the frame is too long for the decompressor or decodes to more than is missing |
| Compression.RecvAndDecompress | src/client/rpc_client.cc:443-481 | when done the buffer is what the frames taken decode to, and they are the first that complete it; when aborted, the frames taken fall short and the next one is unusable |
| Compression.TakenIsPrefix | src/client/rpc_client.cc:443-481 | the frames taken are the first of those sent |
| Compression.AlignedIffLastFrameCounts | src/client/rpc_client.cc:428-481 | all frames sent are taken, and the stream is at the next blob, if and only if the last one is needed or is the only one |
| Compression.EmptyLastFrameIsLeft | src/client/rpc_client.cc:443-481 | a codec and two frames of which the receiver takes only the first |
| Compression.UnusableIsTooLong | src/client/rpc_client.cc:449-475 | on the frames of a blob of the right size, the receiver aborts only at a frame longer than the decompressor's buffer |
| Compression.SendAndReceive | src/client/rpc_client.cc:428-481 | a blob sent is restored: the buffer is what the chunks sent decode to, and what all chunks pulled decode to when the codec ignores empty frames; under that condition on the last frame the stream is left aligned, and the receiver does not abort unless a frame is longer than the decompressor's buffer |
| Rdma.RegisterLocal | src/client/rpc_client.cc:670-698 | a window of at least one byte, at most what is left and at most the probed limit |
| Rdma.RequestRemote | src/client/rpc_client.cc:700-713 | a grant of at least one byte and at most what was registered |
| Rdma.MovePiece | src/client/rpc_client.cc:722-727 | one operation copies one piece between a local and a remote offset and touches nothing else |
| Rdma.MoveWindow | src/client/rpc_client.cc:716-729 | the operations of a window continue the tiling to the end of the grant, each at equal local and remote offsets, at most the maximum size and inside both windows |
| Rdma.TransferRemoteBlob | src/client/rpc_client.cc:658-736 | for any registrations and grants the operations tile the blob from its start; on success all of it, and both sides hold the same bytes; on failure the part reported is equal and nothing past the piece in flight is touched |
| Rdma.TilesCoverOnce | src/client/rpc_client.cc:716-731 | a tiling moves each byte below its end exactly once and none above |
| Rdma.TilesAreOrdered | src/client/rpc_client.cc:716-731 | its operations do not overlap and come in order |
| Brackets.FindEndOfExpressionInLine | misc/cpplint.py:1996-2071 | the loop computes the forward scan of the line's tokens, with its stack of open brackets |
| Brackets.FindStartOfExpressionInLine | misc/cpplint.py:2118-2192 | the loop computes the backward scan of the line's tokens |
| Brackets.CloseExpression | misc/cpplint.py:2074-2115 | the loop over lines computes the closing place |
| Brackets.ReverseCloseExpression | misc/cpplint.py:2195-2230 | the loop over lines computes the opening place |
| BracketText.ScansExactlyGroups | misc/cpplint.py:1996-2071 | a text that starts with an opening bracket is scanned exactly to its end if and only if it is one group of the balanced grammar: in a template list every `<` is closed, elsewhere a lone `<` is dropped, a `<<` takes back the `<` before it, a semicolon all that wait |
| BracketText.GroupScans | misc/cpplint.py:1996-2071 | a group inside a text leaves the stack as it found it; at the bottom it ends the scan |
| BracketText.MirrorIsBalanced | misc/cpplint.py:2118-2192 | read the other way with every bracket turned round, a text without shifts is a group if and only if it was one |
| Brackets.OperatorIsSearch | misc/cpplint.py:2022-2024 | the test for the word `operator` is the search for its pattern: the whole word, with only spaces after it |
| Brackets.ClosingPairs | misc/cpplint.py:2074-2115 | for every file, angle brackets included, and every bracket answered with a place: the place is just past the end of the first bracket from there on that counts, where a `<` counts unless it follows a `<` or `operator`; so it is that of the bracket asked about exactly when that one counts |
| Brackets.ShiftIsAnsweredLater | misc/cpplint.py:2014-2021 | the second `<` of `<<(a)` is answered with the end of the parenthesis |
| Brackets.OpeningPairs | misc/cpplint.py:2195-2230 | for every file, angle brackets included, and every closing bracket answered with a place: the place opens the last bracket up to there that counts, where a `>` counts unless it is taken for part of an operator; so the bracket asked about exactly when that one counts |
| Brackets.ArrowIsAnsweredEarlier | misc/cpplint.py:2140-2148 | the head of the arrow in `(a)->` is answered with the parenthesis before it |
| Brackets.MatchersAreInverse | misc/cpplint.py:1996-2230 | where both scans read the angle brackets alike (every `<` counts, every `>` in both directions or in neither), and so on all lines without them, over any number of lines: (l, p) closes at (l', p') if and only if it may be asked about, (l', p' - 1) counts and opens at (l, p) |
| Brackets.ComparisonIsReadApart | misc/cpplint.py:2140-2148 | in `< >= ` the `<` is closed by the `>`, which only the backward scan takes for a comparison and does not answer |
| Brackets.ClosingIsBalanced | misc/cpplint.py:2074-2115 | for every file and any number of lines: a bracket that counts closes at (l', p') if and only if it may be asked about and the text up to there is one group of the grammar, angle brackets and template lists included |
| Brackets.OpeningIsBalanced | misc/cpplint.py:2195-2230 | for every file: a closing bracket that counts opens at (l, p) if and only if the text from there is one group of the grammar |
| Brackets.GetTextInside | misc/cpplint.py:5138-5191 | for every end: the text up to it is returned if and only if it makes one group with the brackets around it, so nothing is returned if and only if the opening bracket starts no group |
| Preprocessor.NestingState.UpdatePreprocessor | misc/cpplint.py:3016-3070 | the new nesting and preprocessor stacks after one directive |
| Preprocessor.NestingState.UpdateAll | misc/cpplint.py:3073-3095 | and after any number of lines |
| Preprocessor.OnlyFirstBranchesCount | misc/cpplint.py:3016-3070 | for every well-nested file and any effect of its lines on the stack: the nesting stack is that of the first branches alone, at every depth, and the preprocessor stack is as before |
| Preprocessor.ItemCounts | misc/cpplint.py:3016-3070 | the same for one conditional |
| Preprocessor.BranchesRestore | misc/cpplint.py:3041-3067 | later branches leave what `#endif` restores as it was |
| Preprocessor.EachBranchStartsFromIf | misc/cpplint.py:3037-3051 | every later branch, at every depth and after any branches, starts from the stack before the `#if` |
| Preprocessor.MatchedDirectivesRestore | misc/cpplint.py:3016-3070 | every list of lines whose directives match up is such a file |
| Preprocessor.StrayDirectivesAreOrdinary | misc/cpplint.py:3041-3070 | for every file: an `#else` or `#endif` with no conditional open is an ordinary line, and the preprocessor stack is as deep as the conditionals that are open |
| Preprocessor.ClosedFileRestores | misc/cpplint.py:3016-3070 | for every file that leaves no conditional open, stray directives included: the nesting stack is that of the first branches alone |
| PyJson.FromJson | python/pybind11_utils.cc:352-379 | the loops compute the Python value; no dictionary key is assigned twice |
| PyJson.ToJson | python/pybind11_utils.cc:386-435 | the JSON value, or that an exception is raised |
| PyJson.ToJsonMeans | python/pybind11_utils.cc:386-429 | scalars convert to their like, integers of 64 bits keep their value, bytes become the text of their encoding, and a tuple or a list becomes the array of its items, if they all convert |
| PyJson.ThereAndBack | python/pybind11_utils.cc:352-435 | a JSON value comes back from Python with its integers read as signed and otherwise unchanged |
| PyJson.ThereAndBackIffFits | python/pybind11_utils.cc:352-435 | it comes back unchanged if and only if its integers fit in signed 64 bits |
| PyJson.LargeUnsignedIsNegative | python/pybind11_utils.cc:357-360 | the largest unsigned integer comes back as -1 |
| PyJson.AcceptedIffConverted | python/pybind11_utils.cc:386-435 | conversion succeeds exactly on values whose integers are in range and which hold no other type, and yields sorted, distinct keys |
| PyJson.LastAssignmentStays | python/pybind11_utils.cc:425-431 | a converted dictionary has one field for each printed key, with the value assigned last |
| PyJson.NormalFormIsStable | python/pybind11_utils.cc:352-435 | converting to JSON and back is idempotent on every accepted value, and keeps its JSON if and only if its integers fit |
| PyJson.UnchangedIffNormal | python/pybind11_utils.cc:352-435 | an accepted value comes back from JSON as it was if and only if it has no tuples or bytes, signed 64-bit integers, and dictionaries with strings as keys in order |
| PyJson.InsertMeans | python/pybind11_utils.cc:425-431 | assigning a key keeps the fields in key order, replaces or adds that one, and keeps the others |

## Left out

- Sockets, epoll and select, CUDA handles, the RDMA device: they are the environments described above.
- Requests and replies of the wire protocol: their encoding and decoding is not modelled; a reply is the value it carries.
- Thread pools: `TakeResults` and `TaskResult`, which read futures without the lock; 32-bit wrap-around of task ids; spurious wake-ups only re-enter the wait predicate.
- parallel_for: a thread that fails to start; `parallelism == 0`, where the default chunk divides by zero.
- SharedMemory.Session: ends at the first failing call; what a failed reception leaves behind is not followed further.
- Rdma.TransferRemoteBlob: an empty blob never completes, because a grant of zero bytes is asked for again; the contract says so and no more.
- Retry loops: the number of attempts is bounded by a parameter and the outcome is then `Stalled`; nothing is claimed about how long an environment refuses.
- Framing.RecvMessage: a length of 2^64 - 1, for which the resized string would be empty, is reported as `OutOfRange`; failures to allocate are not modelled.
- Compression: the codec is any function whose output for more frames extends its output for fewer; zstd itself, and compression errors, are not modelled.
- Usage: `ref_cnt` is an unbounded integer; threads that share one client are serialised by its lock.
- Plasma: other clients do not name an object by the empty string; objects that this client holds keep their payload and stay sealed on the server.
- ShallowCopy.Copier.CreateMetaData: besides the id and the instance, the server also rewrites `transient`, `signature`, `nbytes` and labels; those scalars are not modelled.
- ShallowCopy.Copier.ShallowCopy: equal ids are required to carry equal subtrees; the request that moves ownership of the buffers is not modelled.
- Brackets: `\s` and `\w` are those of ASCII; the stack of open brackets holds their kinds; `_GetTextInside` starts where its pattern has matched.
- Brackets.MatchersAreInverse: the condition that both scans read the angle brackets alike is sufficient, not necessary: a bracket dropped by both for different reasons does no harm; for every file each direction has its own exact condition, in `ClosingIsBalanced` and `OpeningIsBalanced`.
- Preprocessor: the regular expressions that classify a line as a directive, and what an ordinary line does to the stack, which is any function.
- PyJson: strings are sequences of characters, so text that is not valid UTF-8 is out; JSON binary and discarded values; floats are compared by their bits; how keys print and how bytes are encoded are parameters.
- The rest of the repository: the metadata service with its etcd, redis and local backends, the server's allocators and its spilling of cold blobs to disk, the Fuse file system, the msgpack and graph modules, the Kubernetes operator in Go, and the style checks of the linter.

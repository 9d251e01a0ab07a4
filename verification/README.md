# Verified models of the seminar snippets

A Dafny 4.11 project that models the algorithmic snippets of a course on operating systems and
proves whole-run properties of them. `dafny verify dfyconfig.toml` checks all of it.

Numbers fixed in the snippets (threads, iterations, capacities, matrix size) are parameters here.
Whatever the code cannot control is an adversary: the scheduler, the addresses malloc returns, spurious
failures of the weak compare-exchange, spurious wakeups, the result of every `read` and `write`, the
moment a child exits, where code and stack lie in memory.

## What is modelled

- `stack/`: the lock-free stack of sem08 as a transition system. One event is one atomic action: malloc
  with the payload write, a load of top, the write of `prev`, the read of `prev`, a weak compare-exchange,
  print, free. Any thread may push; a set of threads pops; a flag says whether malloc may return a freed
  address again. Main results: linearizability holds exactly with at most one popper or without reuse;
  no freed node is touched exactly with at most one popper; failures are bounded by successes
  (lock-freedom) and a thread left alone finishes (obstruction-freedom); and the output, conservation,
  freeing and possible end of a run of `main`. The notebook calls the
  implementation prone to A-B-A (sem08-pthread-sync/main.ipynb:2331); `LinearizableIff` says when that is so:
  the program's own `main`, with one consumer, is safe even when addresses are recycled.
- `x86/`: a machine with sixteen registers, the flags the jumps read, byte-addressed memory whose unmapped
  bytes fault, and 32- and 64-bit wrap-around; `fib-rec/fib.s`, `fib-loop/fib.s` and `memory/sum.s` run on it
  instruction by instruction, for any code layout. `Cpu` is the machine as an object updated in place.
- `threads/`: the racing counter (each increment a load and a store), its atomic repair, and the condition
  variable protocol.
- `servers/`: the epoll echo server, with its buffers updated in place and each method proved equal to a
  function on values whose properties are lemmas, and the SIGCHLD reaping of the forking server.
- `files/`: the buffered writer in front of an adversarial `write`, and the JSON file system index.
- `memory/`: the shuffled linked list and the two matrix products.

Sequential code that changes state is written as classes and methods with loops. Code whose point is
interleaving (`stack.c`, `no-sync.c`, `condvar.c`, the life of the forked children) is a transition system,
since a method body would fix one interleaving; what those programs run alone (`stack_destroy`, the signal
handler) is again methods.

Where the code falls short of what it looks like, the model follows the code. `stack_pop` runs off its end on
an empty stack, and its caller compares the result with NULL, so that case is a null result. The two `fib`
routines differ by one in their index; `AgreesWithRecursive` states the shift. `++` on a plain shared `int` is
undefined in C; the counter is modelled one level down, as loads and stores under sequential consistency,
which is how the notebook explains it. Signed overflow in the matrix product is undefined in C++; it is
modelled as wrap-around, which is the exact integer result when nothing overflows.

## Model

| member | source | states |
|---|---|---|
| StackSafety.StepInv | sem08-pthread-sync/snippets/lock-free/stack.c:29-77 | every atomic action of every thread keeps the stack's invariant: the chain from top is acyclic, live and equal to the abstract stack; nodes in flight have one holder; a popper's loaded top is still on the stack with the same link, or can never be top again |
| StackTheorems.StepRefines | sem08-pthread-sync/snippets/lock-free/stack.c:29-49 | a successful compare-exchange is exactly one abstract push, or one abstract pop that takes the head; every other action, spurious failures included, leaves the abstract stack as it is |
| StackTheorems.SafeIsLinearizable | sem08-pthread-sync/snippets/lock-free/stack.c:29-92 | with any number of pushers, and one popper under address reuse or any number of poppers without it, every run replays on one atomic stack (each pop returned the head, each null result met an empty stack), and the heap holds exactly that stack |
| StackTheorems.LinearizableIff | sem08-pthread-sync/snippets/lock-free/stack.c:29-49 | the operations of all runs, in the order of their atomic actions, are legal on one atomic stack if and only if at most one thread pops or addresses are not reused; otherwise some run is legal in no order whatever |
| StackTheorems.AbaRun | sem08-pthread-sync/snippets/lock-free/stack.c:42-49 | the A-B-A run: with two poppers and reuse there is a run after which top is not a chain of live nodes |
| StackTheorems.AbaPopsTooMuch | sem08-pthread-sync/snippets/lock-free/stack.c:42-49 | continued by one more pop, the A-B-A run has popped more values than were pushed |
| StackTheorems.AlwaysIntactIff | sem08-pthread-sync/snippets/lock-free/stack.c:29-49 | top always heads an acyclic chain of live nodes equal to the abstract stack, in all runs, under exactly the same two regimes |
| StackTheorems.SinglePopperNeverTouchesFreed | sem08-pthread-sync/snippets/lock-free/stack.c:42-77 | with one popper no run reads, writes or frees a node that is not live, even when addresses are recycled |
| StackTheorems.OnlyReadPrevMeetsFreed | sem08-pthread-sync/snippets/lock-free/stack.c:33-73 | in both safe regimes the read of prev is the only access that can meet a freed node; linking, printing and freeing find theirs live |
| StackTheorems.NeverTouchesFreedIff | sem08-pthread-sync/snippets/lock-free/stack.c:42-77 | freed nodes are never touched, in all runs, if and only if at most one thread pops |
| StackTheorems.SoloPush | sem08-pthread-sync/snippets/lock-free/stack.c:29-40 | a push that runs undisturbed succeeds at its first attempt and adds its value on top, nothing else |
| StackTheorems.SoloPop | sem08-pthread-sync/snippets/lock-free/stack.c:42-73 | a pop that runs undisturbed on a non-empty stack takes the top node, prints its payload and frees that node only |
| StackProgress.LockFree | sem08-pthread-sync/snippets/lock-free/stack.c:33-48 | in every run of n threads, at most n - 1 compare-exchanges are overtaken per successful one, up to those already doomed at the start |
| StackProgress.LockFreeFromStart | sem08-pthread-sync/snippets/lock-free/stack.c:33-48 | from the empty stack the overtaken attempts never exceed (n - 1) times the successful ones |
| StackProgress.NeverBlocked | sem08-pthread-sync/snippets/lock-free/stack.c:33-48 | inside an operation a thread always has a move of its own, whatever it has lost, and every exchange may fail |
| StackProgress.FinishPush | sem08-pthread-sync/snippets/lock-free/stack.c:33-39 | a push at any point of its loop, its view of top stale or not, is over after at most five steps of its own, with its node on top and nothing else changed |
| StackProgress.FinishPop | sem08-pthread-sync/snippets/lock-free/stack.c:42-49 | likewise a pop takes the top node, or finds the stack empty |
| StackProgress.ObstructionFree | sem08-pthread-sync/snippets/lock-free/stack.c:29-49 | in every state of every run in a safe regime, a thread inside push or pop that is left alone completes its operation, however many exchanges it has lost |
| StackOutput.ManyConsumersConserve | sem08-pthread-sync/snippets/lock-free/stack.c:64-76 | in both safe regimes, with any number of producers and consumers, every pushed value is printed, in the hands of one thread that popped it, or on the stack, each once |
| StackClient.ReplayIncreasing | sem08-pthread-sync/snippets/lock-free/stack.c:55-77 | an atomic stack fed 0, 1, 2, ... holds a descending stack, and between a larger value and a smaller one popped after it every value in between has already been popped |
| StackClient.MainRunOutput | sem08-pthread-sync/snippets/lock-free/stack.c:55-92 | in every state of every run of one producer and one consumer: no c, a, b with a < b < c in the output; pushed values are printed, in hand or on the stack, each once; the live nodes are those on the stack or in hand |
| StackClient.MainRunComplete | sem08-pthread-sync/snippets/lock-free/stack.c:79-93 | after both joins there is one chain from top, and for it: the output and the stack together are a permutation of the pushed values; with equal numbers of pushes and pops the stack is empty and every node has been freed |
| StackCompletion.NeitherWaits | sem08-pthread-sync/snippets/lock-free/stack.c:55-77 | in every state of every run of main, producer and consumer each have a move exactly until their own rounds are over |
| StackCompletion.MainCanEnd | sem08-pthread-sync/snippets/lock-free/stack.c:55-93 | from every state of every run main can still reach both joins, if it pops no more than it pushes |
| StackCompletion.MainCanEndIff | sem08-pthread-sync/snippets/lock-free/stack.c:55-93 | main can end at all if and only if it pops no more than it pushes |
| StackDestroy.Allocator.StackDestroy | sem08-pthread-sync/snippets/lock-free/stack.c:20-27 | frees the nodes of the chain, each once and top first, reading each link before its node is freed, and no other node |
| StackDestroy.FinishMain | sem08-pthread-sync/snippets/lock-free/stack.c:79-93 | at the end of any run of main no node is live, and malloc and free were called equally often |
| ByteMemory.LoadStore | sem04-asm-x86/snippets/fib-rec/fib.s:5-26 | a little-endian value stored is the value loaded |
| ByteMemory.LoadBytes | sem04-asm-x86/snippets/memory/sum.s:11-18 | byte k of a loaded value, from the least significant, is the byte at address a + k |
| FibRec.Correct | sem04-asm-x86/snippets/fib-rec/fib.s:4-33 | for every signed 64-bit n and enough stack: returns to the caller with rax = F(n-1) mod 2^64 (0 for n <= 1), rsp popped, all registers but rax and rdi as before, memory changed at most in the 16 + 24 max(0, n-2) bytes below the entry rsp |
| FibRec.FaultsWithoutRoom | sem04-asm-x86/snippets/fib-rec/fib.s:4-33 | if one of those bytes is not mapped the routine faults |
| FibRec.ReturnsIffRoom | sem04-asm-x86/snippets/fib-rec/fib.s:4-33 | the routine returns to a caller outside the program if and only if all of those bytes are mapped |
| FibRec.OnlyReturn | sem04-asm-x86/snippets/fib-rec/fib.s:4-33 | a run reaches at most one state outside the program, so the promised return is the only one |
| FibLoop.Correct | sem04-asm-x86/snippets/fib-loop/fib.s:4-20 | for every signed 64-bit n the loop returns rax = F(n) mod 2^64 (0 for n <= 0), writes no memory, and changes no register but rax, rdi, rsp, r8, r9 |
| FibLoop.AgreesWithRecursive | sem04-asm-x86/snippets/fib-loop/fib.s:4-20 | recursive fib on n + 1 returns what iterative fib returns on n |
| MySum.OneCell | sem04-asm-x86/snippets/memory/sum.s:11-18 | using up one cell leaves flags that say exactly whether the new edi is <= 0 |
| MySum.MinusCell | sem04-asm-x86/snippets/memory/sum.s:15-20 | back at start_loop the flags again compare the current edi with 0, though no comparison is executed there |
| MySum.Correct | sem04-asm-x86/snippets/memory/sum.s:4-22 | returns the alternating sum of the n int32 cells mod 2^32 for every int32 n, 0 for n <= 0, writing no memory |
| MySum.ReadsOnlyTheCells | sem04-asm-x86/snippets/memory/sum.s:4-22 | with every byte but the n cells and the return address unmapped it returns the same sum, so it reads no other byte |
| CpuModel.Cpu.Tick | sem04-asm-x86/snippets/fib-rec/fib.s:5-33 | one instruction executed in place on registers, flags, memory and program counter is one step of the machine |
| CpuModel.Cpu.CallFibRec | sem04-asm-x86/snippets/fib-rec/fib.s:4-33 | running the machine in place from a call of recursive fib ends, at the caller, in the promised state |
| CpuModel.Cpu.CallFibLoop | sem04-asm-x86/snippets/fib-loop/fib.s:4-20 | the same for iterative fib |
| CpuModel.Cpu.CallMySum | sem04-asm-x86/snippets/memory/sum.s:4-22 | the same for my_sum |
| RacyCounter.Bounds | sem08-pthread-sync/snippets/no-sync/no-sync.c:12-31 | every complete interleaving of n threads with k load-then-store increments ends between the least value and n * k; the least value is 2 for n, k >= 2 |
| RacyCounter.LoseMost | sem08-pthread-sync/snippets/no-sync/no-sync.c:12-31 | for all n, k >= 2 there are runs ending with 2, 3, ..., k + 1 |
| RacyCounter.PossibleIff | sem08-pthread-sync/snippets/no-sync/no-sync.c:20-33 | the printable values are exactly those from the least value to n * k, for all n, k >= 1 |
| RacyCounter.NeverStuck | sem08-pthread-sync/snippets/no-sync/no-sync.c:12-18 | in every run a thread can move exactly until its k increments are done |
| AtomicCounter.AlwaysTotal | sem08-pthread-sync/snippets/no-sync/no-sync-fix.c:12-31 | with atomic increments every complete run of n threads with k increments each prints n * k |
| AtomicCounter.OnlyDoneThreadsStop | sem08-pthread-sync/snippets/no-sync/no-sync-fix.c:12-18 | in every run a thread can move exactly until its k increments are done, and a run that cannot go on is complete |
| AtomicCounter.Completion | sem08-pthread-sync/snippets/no-sync/no-sync-fix.c:12-31 | every run can be continued to a complete one, by exactly the increments still missing |
| AtomicCounter.ExpandIsRacyRun | sem08-pthread-sync/snippets/no-sync/no-sync-fix.c:12-18 | the repaired program's runs are runs of the racing one, with the same result |
| CondVar.StepInv | sem08-pthread-sync/snippets/condvar/condvar.c:13-59 | every step keeps mutual exclusion, the count, and: if main sleeps on a complete count, a signal is still to come |
| CondVar.LeavesOnlyWhenAllDone | sem08-pthread-sync/snippets/condvar/condvar.c:41-59 | once main is out of its loop done equals the number of threads and every worker has released the mutex |
| CondVar.NeverStuck | sem08-pthread-sync/snippets/condvar/condvar.c:13-59 | no wakeup is lost: in every reachable state that is not final some step other than a spurious wakeup is possible |
| CondVar.BlockedOnlyBy | sem08-pthread-sync/snippets/condvar/condvar.c:13-59 | in every reachable state a worker waits for nothing but the mutex; main waits for the mutex or sleeps, and a sleeping main may wake spuriously at any time |
| CondVar.CanEnd | sem08-pthread-sync/snippets/condvar/condvar.c:13-62 | from every reachable state the program can end without any spurious wakeup |
| CondVar.Terminates | sem08-pthread-sync/snippets/condvar/condvar.c:13-62 | a run of n workers with b spurious wakeups has at most 7n + 3 + 3b steps, and where it cannot go on all threads have ended |
| EchoSpec.HandleSettled | sem10-net-sockets/snippets/epoll/server_epoll.c:183-228 | an event, whatever read and write return, closes the connection or leaves 0 <= begin <= end < capacity, begin = end only at 0, EPOLLOUT registered exactly when begin < end, and received = sent ++ buffer[begin..end] |
| EchoSpec.ReadLoopStores | sem10-net-sockets/snippets/epoll/server_epoll.c:80-100 | a read loop that leaves the connection open has appended to the buffer the whole burst of data the kernel gave, byte for byte, and stopped at the first answer that is not data |
| EchoSpec.HandleMoves | sem10-net-sockets/snippets/epoll/server_epoll.c:183-228 | an event adds the bytes fed to what was received and sends the first bytes of what is then buffered, as many as write takes; the rest stays |
| EchoSpec.EchoIsPrefix | sem10-net-sockets/snippets/epoll/server_epoll.c:80-228 | from accept on, under every event order and all results of read and write, the bytes sent back followed by the bytes buffered are exactly the bytes the kernel has handed over, in order |
| EchoSpec.ReadLoopCloses | sem10-net-sockets/snippets/epoll/server_epoll.c:196-212 | for every sequence of read results, endless data included, the read loop closes the connection if and only if the data fill the buffer to its last byte or a hard error comes first |
| EchoSpec.ClosesIff | sem10-net-sockets/snippets/epoll/server_epoll.c:183-228 | the exact cases in which an event closes a connection |
| EchoSpec.Drains | sem10-net-sockets/snippets/epoll/server_epoll.c:215-228 | after as many progressing writable events as there are buffered bytes everything received has been sent and EPOLLOUT is off |
| EchoSpec.EverythingComesBack | sem10-net-sockets/snippets/epoll/server_epoll.c:80-228 | whatever happened since accept, a client still connected that goes on reading gets back exactly the bytes it sent |
| EchoServer.FdData.Receive | sem10-net-sockets/snippets/epoll/server_epoll.c:80-100 | reading into the fixed buffer puts the bytes the kernel gives, as many as there is room for, in order behind the buffered ones and leaves those alone |
| EchoServer.FdData.Send | sem10-net-sockets/snippets/epoll/server_epoll.c:102-127 | writing sends a prefix of the buffered bytes and rewinds the buffer when none are left |
| EchoServer.FdData.Process | sem10-net-sockets/snippets/epoll/server_epoll.c:183-228 | the event handler on the real buffer, read loop included, terminates and does what the event is specified to do |
| EchoServer.Server.ProcessReady | sem10-net-sockets/snippets/epoll/server_epoll.c:139-230 | an accepted client gets a new connection with an empty buffer; a client event changes its own connection only, or closes it |
| EchoServer.Server.ProcessBatch | sem10-net-sockets/snippets/epoll/server_epoll.c:267-280 | when a batch names each descriptor at most once no freed connection is used; each named connection goes through its event, the others do not change, the new connections are as many as the accepted clients, fresh and empty, and all live ones are settled afterwards |
| Reaper.ZombiesAreAnnounced | sem10-net-sockets/snippets/tcp-fork/tcp_server.c:82-158 | in every run a zombie exists only while SIGCHLD is pending or the handler has its empty check still to make; in main code with nothing pending every child is running or reaped once |
| Reaper.EveryExitIsReaped | sem10-net-sockets/snippets/tcp-fork/tcp_server.c:82-158 | in every run, pid by pid: forks are exits plus one if the child runs now, exits are successful waitpids plus one if it is a zombie now |
| Reaper.ExitsMerge | sem10-net-sockets/snippets/tcp-fork/tcp_server.c:82-84 | any set of running children may exit in any state, also during the handler, leaving one pending signal for all of them |
| Reaper.ManyChildrenOneSignal | sem10-net-sockets/snippets/tcp-fork/tcp_server.c:82-158 | for any number of children there is a run in which all are forked, all exit, and one delivery reaps them all |
| Reaper.OneDeliveryReapsAll | sem10-net-sockets/snippets/tcp-fork/tcp_server.c:82-84 | in every run, between a delivery and the return of the handler each zombie there was, however many exits were merged into the one pending bit, is reaped exactly once, and any later zombie has a signal pending |
| Reaper.DeliveryCanEnd | sem10-net-sockets/snippets/tcp-fork/tcp_server.c:82-84 | a delivery can always run to its end, in one waitpid per zombie and one more |
| Reaper.ProcessTable.SigchldHandler | sem10-net-sockets/snippets/tcp-fork/tcp_server.c:82-84 | with children exiting before every waitpid the handler ends, has reaped every zombie there was, nobody twice, and leaves no zombie without a pending signal |
| BufferedWriter.DeliversPrefix | sem03-lowlevel-io-fs/buffered_perf.c:8-30 | whatever the descriptor answers, a prefix of the data gets through and the return value is its length or -1 |
| BufferedWriter.DeliversAll | sem03-lowlevel-io-fs/buffered_perf.c:8-30 | with short writes and retryable errors only, all of the data gets through |
| BufferedWriter.StopsExactly | sem03-lowlevel-io-fs/buffered_perf.c:8-30 | with a descriptor that closes or fails after k benign answers, what gets through of non-empty data is exactly what those answers take, and the result is that length after a close and -1 after an error |
| BufferedWriter.WriteRetry | sem03-lowlevel-io-fs/buffered_perf.c:8-30 | the retry loop terminates and delivers what the answers of the descriptor allow, no byte twice |
| BufferedWriter.Writer.Put | sem03-lowlevel-io-fs/buffered_perf.c:54-70 | input = delivered ++ buffered is kept; a flush happens when the buffer would overflow and takes exactly a full buffer |
| BufferedWriter.Writer.Close | sem03-lowlevel-io-fs/buffered_perf.c:47-52 | delivers the rest; over the whole life write_retry was called ceil(L / capacity) times |
| BufferedWriter.WriteImpl | sem03-lowlevel-io-fs/buffered_perf.c:72-89 | all lines come out in order up to their first NUL, in ceil(L / capacity) calls of write_retry; without hard errors the descriptor has taken exactly the whole file if and only if no line contains a NUL byte |
| BufferedWriter.WholeFileIff | sem03-lowlevel-io-fs/buffered_perf.c:54-83 | behind anything already written, the C strings of the lines read are the lines themselves if and only if no line contains a NUL byte |
| JsonTree.PathInjective | sem03-lowlevel-io-fs/fuse/fuse_json.py:16-34 | different component lists have different paths |
| JsonTree.PathShape | sem03-lowlevel-io-fs/fuse/fuse_json.py:16-34 | a clean path is its parent, a slash and the last name |
| JsonTree.DecimalIsNumeral | sem03-lowlevel-io-fs/fuse/fuse_json.py:27-29 | the name of item n is its base-10 numeral: digits only, no leading zero, denoting n |
| JsonIndex.TBuildAt | sem03-lowlevel-io-fs/fuse/fuse_json.py:16-34 | building below a directory sets exactly the nodes reached by walking from it and leaves every other entry alone |
| JsonIndex.IndexAgrees | sem03-lowlevel-io-fs/fuse/fuse_json.py:10-34 | for every tree with clean, unique keys a path is indexed, as file or directory and with the right content, exactly when walking the tree reaches such a node, and nothing else is indexed |
| JsonIndex.OneToOneIff | sem03-lowlevel-io-fs/fuse/fuse_json.py:10-34 | for every tree of dictionaries and lists: each node is indexed as what it is, no two nodes share a path and every indexed path leads to a node, if and only if no key is empty or contains a slash |
| JsonFileSystem.JsonFs.constructor | sem03-lowlevel-io-fs/fuse/fuse_json.py:10-14 | the two dictionaries hold the index of the tree |
| JsonFileSystem.JsonFs.BuildTree | sem03-lowlevel-io-fs/fuse/fuse_json.py:16-34 | filling the dictionaries in place builds the index |
| JsonFileSystem.FilesAndDirsDisjoint | sem03-lowlevel-io-fs/fuse/fuse_json.py:10-34 | no path is both a file and a directory |
| JsonFileSystem.GetAttrWalks | sem03-lowlevel-io-fs/fuse/fuse_json.py:36-49 | getattr answers as the tree does: ENOENT exactly where walking fails, a directory for the root and every container, the length for a leaf |
| JsonFileSystem.AttrKinds | sem03-lowlevel-io-fs/fuse/fuse_json.py:36-60 | st_mode of a file says regular file, rw-r--r--, and of a directory says directory, rwxr-xr-x; exactly the files can be read; elsewhere readdir lists only . and .. |
| JsonFileSystem.ChildrenAreIndexed | sem03-lowlevel-io-fs/fuse/fuse_json.py:16-34 | the entry under a key, or item i under the numeral of i, is found at the path of its directory, a slash and that name, with its own content |
| JsonFileSystem.ReadDirListsChildren | sem03-lowlevel-io-fs/fuse/fuse_json.py:51-52 | readdir of a directory lists . and .., then exactly the names of its children, each once and in order |
| JsonFileSystem.ReadAnswers | sem03-lowlevel-io-fs/fuse/fuse_json.py:54-60 | one read returns the bytes text[offset], text[offset + 1], ..., size of them or up to the end of the leaf, none past the end, and ENOENT where walking reaches no leaf |
| JsonFileSystem.NoOtherPaths | sem03-lowlevel-io-fs/fuse/fuse_json.py:36-60 | any string that is not the path of a list of names is ENOENT to getattr and read |
| JsonFileSystem.ReadsRebuildLeaf | sem03-lowlevel-io-fs/fuse/fuse_json.py:54-60 | consecutive calls of read of any positive size, until one returns nothing, rebuild the content of a leaf |
| JsonFileSystem.SlashBreaksAgreement | sem03-lowlevel-io-fs/fuse/fuse_json.py:16-25 | an example: with the single key a/b the index has the path /a/b, which walking by a and then b does not reach |
| ListTraversal.Link | sem06-memory/snippets/latency/list_traversal.cpp:53-56 | the nodes form one list in the shuffled order, ending after the last |
| ListTraversal.Walk | sem06-memory/snippets/latency/list_traversal.cpp:67-72 | following next visits all nodes in list order and then stops |
| ListTraversal.Time | sem06-memory/snippets/latency/list_traversal.cpp:34-73 | for every n >= 1, every shuffle and every number of iterations each traversal visits the nodes in shuffled order, in n steps |
| ListTraversal.PermutationIsOnto | sem06-memory/snippets/latency/list_traversal.cpp:51-72 | so every node is visited, exactly once |
| MatMul.Naive | sem06-memory/snippets/matmul/naive.cpp:8-17 | res ends as its initial value plus the matrix product, mod 2^32 |
| MatMul.Fast | sem06-memory/snippets/matmul/naive.cpp:19-34 | the same, through the transposed copy |
| MatMul.FastRefinesNaive | sem06-memory/snippets/matmul/naive.cpp:8-34 | from equal initial results fast and naive leave equal results |
| MatMul.IdentityLeft | sem06-memory/snippets/matmul/naive.cpp:8-17 | the product with the identity on the left is the matrix |
| MatMul.IdentityRight | sem06-memory/snippets/matmul/naive.cpp:8-17 | and with the identity on the right |
| MatMul.TransposeOfProduct | sem06-memory/snippets/matmul/naive.cpp:8-34 | the transpose of a product is the product of the transposes in the other order |
| MatMul.LinearOnTheLeft | sem06-memory/snippets/matmul/naive.cpp:8-17 | the product is linear in its left factor |

## Left out

- Weak memory orders: all interleavings are sequentially consistent, as the atomics of stack.c are by default.
- Failure of malloc and calloc, pthread_create and fork bookkeeping, printf, sockets, bind, listen, DNS, fcntl, file opening and FUSE mounting.
- StackSafety.StepInv: malloc and the payload write are one action, because no other thread can see the node in between.
- FibRec.Correct: instruction lengths and encodings are not modelled; instructions lie at arbitrary distinct addresses, and the carry and parity flags, which nothing reads, are absent. The 16-byte stack alignment the calling convention asks for at calls is not kept by the code and not claimed.
- FibRec.ReturnsIffRoom: assumes the stack does not reach below address 0.
- RacyCounter.PossibleIff: the counter is unbounded; no value exceeds n * k, so nothing overflows when n * k fits an int.
- CondVar.Terminates: the sleeping work loop before the lock touches nothing shared and is one step with the thread's creation.
- EchoSpec.HandleSettled: assumes EPOLL_CTL_MOD succeeds, as the code does by ignoring its result; edge-triggered delivery itself is the kernel's and any order of events is allowed.
- EchoServer.Server.ProcessBatch: whether an event is for the listening socket is taken as given, not read from the event's union; a connection freed by close_connection is one taken out of the server's set.
- Reaper.ZombiesAreAnnounced: a child's exit and its SIGCHLD are one step; the echo loop of the child is left out, being an easier version of the epoll one.
- BufferedWriter.Writer.Put: asks that length plus buffered bytes stay within two buffers, which is exactly when the two copies fit; longer strings overflow the buffer, as the comment at buffered_perf.c:57-59 says.
- BufferedWriter.WriteRetry: a descriptor gives finitely many adverse answers and then takes everything, since one that says EAGAIN for ever keeps the loop running for ever.
- BufferedWriter.Writer.Close: without benign answers it states which prefix gets through, not that the rest is reported; the code ignores the result.
- JsonIndex.IndexAgrees: keys that are empty or contain a slash are excluded (OneToOneIff says that they must be); a leaf is its encoded text, and the text str() produces for a value is not modelled.
- MatMul.Fast: the innermost loop of each product is a method of its own.
- ListTraversal.Time: timing, the memory clobber and the shuffle's randomness; n = 0 is excluded, as n - 1 wraps around there.
- cache_line_benchmark.cpp, the two-thread litmus and deadlock demos, read_retry and the copy loops, aarch64 and AVX snippets, and the notebooks' prose topics: they would only add easier members.

# Verified models of eight programs

This directory models the logic of eight small programs of the repository in Dafny 4.11 and proves what they keep,
compute and print. It stands beside the sources and needs nothing but Dafny: `dafny verify dfyconfig.toml` checks all of it.

| program | files |
|---|---|
| Self-modifying merge for the Little Man Computer | `LittleMan.dfy`, `MergeSpec.dfy`, `MergeProgram.dfy`, `MergeCycles.dfy`, `MergeRuns.dfy` |
| Breadth-first search with a queue of paths, in Lisp | `PathSearch.dfy` |
| Bank over a network of two ring buffers, in Java | `Packets.dfy`, `Rings.dfy`, `Network.dfy`, `Client.dfy`, `Server.dfy`, `Bank.dfy`, `BankInvariant.dfy`, `BankRuns.dfy`, `BankProgress.dfy` |
| HAL's three aspects, in AspectJ | `Hal.dfy` |
| Nonblocking echo server, in C++ | `Echo.dfy` |
| Tree of path parts and its indented printing, in Python | `Trie.dfy`, `PrintedPaths.dfy`, `TreePrinter.dfy` |
| Inheritance rules, in Prolog | `ExtendsFacts.dfy`, `Inheritance.dfy`, `ChainOrder.dfy`, `Interfaces.dfy`, `Duality.dfy` |
| HTTP/3 client's event demultiplexer, in Python | `Demux.dfy` |

Programs that change things step by step are classes and methods with loops, each proved against a function; the
theorems are about the functions and about every run of the state machines they make. Programs that are recursion
over values are functions. Each theorem speaks of every input, every run or every interleaving; where the property
one would expect is false of the code, the theorem is an equivalence that says exactly when it holds.

## How the programs are modelled

**Merge.** The machine is the hundred-cell computer with ten's complement words: 999 is -1, and BRP branches on an
accumulator below 500. The listing is given label by label; `MergeProgram.dfy` has one assertion for each of its
cells. Codes without an instruction (4xx among them) stop the machine as faulted, an IN on an empty in-box leaves it
waiting, and the cells after the program start at 0. The source speaks of "around 20 elements" and of output "in
reverse"; the code takes exactly 18 elements over both lists and shows them in ascending order, the second list first
on ties. With 19 elements or more the array runs out at cell 99: a store becomes a 4xx code, or a load becomes a
branch to cell 0 and the program starts over.

**Search.** The recursion has no bound of its own, so `Bfs` takes the number of calls it may make, and the theorems
say for which nets some number is enough. The source's `(nil)` for an empty queue calls a function that does not
exist; it is modelled as the answer "not found".

**Bank.** `Bank.dfy` interleaves four threads in any order. One call of a `Network` method, or one test of a status,
is one step. Client and server reach the shared static fields through different `Network` objects, so the
`synchronized` keyword does not make their calls exclude each other; that each call is atomic is an assumption. The
main program constructs and starts server, sending client and receiving client one after the other; the construction
of each, which connects it, is its first step. Ring size (10 in the source), transactions and accounts are arbitrary;
balances are reals. The transaction status setter writes the error field, and the model does so too. A transaction
for an unknown account makes the source run off its account array; the model's server crashes there, and the
theorems say when it does and what has happened by then. Network status is active from construction on, so the
loops that wait for it are left out. The sequential execution that the theorems compare with is the table `Plan` in
`BankInvariant.dfy`; it goes up to the first transaction without an account.

**Aspects.** The declared precedence is the order of composition: logger, life support, authorization, computer. The
log has no times. Officers are objects; the map of counters is keyed by them, while the log has names only, which is
why the replay theorem needs distinct names.

**Echo.** A run is any series of callbacks that asio can make; how much a transfer moves and how it ends are
arbitrary. Waits, reads and writes end without an error, would block, or fail. A connection that closes need not have
echoed everything; the model says which closing events lose bytes.

**Tree.** `Trie.dfy` has the ordered tree as a value, `TreePrinter.dfy` the mutable dictionaries, found by the key
sequences that lead to them. White space is that of Latin-1. Each call of `print` is one line; parts have no newline,
because they come from lines of standard input. The printed lines do not always determine the tree: a key that is
another key after four spaces can stand a level further left. `Trie.dfy` says exactly for which keys that can happen
in a tree, `PrintedPaths.dfy` exactly for which parts it can happen to the paths that the program is given.

**Inheritance.** Answers come as a list, in the order and with the repetitions of depth-first resolution, for a class
that is given. The rules go on for ever on cyclic facts, so they take the number of nested calls they may make; `IsChain`
says that some number is enough. The first rule tests whether classes are declared, the second does not, so only the
last step of an upward path, and the first of a downward one, is tested. That the two chains agree is therefore false
of some facts; `Duality.dfy` has the exact condition. `ChainOrder.dfy` has the order of the answers, for any facts and then
for facts where each class extends at most one.

**Demultiplexer.** Calls and HTTP events come in any order; stream ids of calls are fresh. A future is the entry
its result makes. What the consumers are meant to see is defined on the trace alone.

## Model

| member | source | states |
|---|---|---|
| LittleMan.Computer.Cycle | assembly/lmc/combine_two_ordered_lists.elmc:60-182 | one fetch-execute cycle overwrites the machine's own cells in place and does exactly what the pure step function does |
| MergeSpec.ArithmeticIsSigned | assembly/lmc/combine_two_ordered_lists.elmc:54-56 | adding or subtracting is exact on the numbers the words stand for in [-500, 499], and otherwise out by 1000 |
| MergeSpec.NotLessIsSigned | assembly/lmc/combine_two_ordered_lists.elmc:113-114 | the subtract-and-BRP test is the signed comparison on exactly the pairs whose difference lies in [-500, 499] |
| MergeSpec.MergeIsPermutation | assembly/lmc/combine_two_ordered_lists.elmc:102-162 | the merge loses, duplicates and invents nothing, whatever the comparisons say |
| MergeSpec.MergeIsTrueExactlyWhenHeadsFit | assembly/lmc/combine_two_ordered_lists.elmc:112-134 | the merge under the machine's test is the merge of signed numbers if and only if every pair of heads it brings together fits |
| MergeSpec.MergeIsSortedExactlyWhenHeadsFit | assembly/lmc/combine_two_ordered_lists.elmc:26-30 | two ordered lists merge to an ordered list if and only if every pair of heads brought together fits |
| MergeSpec.CrossDifferencesFit | assembly/lmc/combine_two_ordered_lists.elmc:54-56 | differences in [-500, 499] across the lists are enough for that |
| MergeCycles.CycleKeepsCode | assembly/lmc/combine_two_ordered_lists.elmc:68-162 | no cycle of a run stores into a program cell other than the six rewritten instructions |
| MergeRuns.LoadInv | assembly/lmc/combine_two_ordered_lists.elmc:60-182 | the loaded machine satisfies the assertion at its first cell |
| MergeRuns.CycleInv | assembly/lmc/combine_two_ordered_lists.elmc:60-165 | every cycle leads from the assertion at one cell to the assertion at the next, in step with the merge, and the bound on the cycles left falls |
| MergeRuns.RunInv | assembly/lmc/combine_two_ordered_lists.elmc:60-165 | hence after any number of cycles, and after that bound the machine no longer runs |
| MergeRuns.RunEnds | assembly/lmc/combine_two_ordered_lists.elmc:60-165 | after 21(n+m)+48 cycles every run is over: halted with exactly the merge shown if n+m is at most 18, otherwise waiting or faulted with a beginning of the merge shown |
| MergeRuns.HaltsExactlyWhenListsFit | assembly/lmc/combine_two_ordered_lists.elmc:51-56 | the program halts if and only if the lists have at most 18 elements together, and whenever it halts it has shown the merge |
| MergeRuns.SortsExactlyWhenHeadsFit | assembly/lmc/combine_two_ordered_lists.elmc:26-56 | ordered lists that fit the array come out as a permutation that is ordered, and equal to the merge of signed numbers, if and only if the heads fit |
| MergeSpec.WrongOrder | assembly/lmc/combine_two_ordered_lists.elmc:112-134 | 499 and 500, which stands for -500, merge in the wrong order |
| MergeRuns.ShowsWrongOrder | assembly/lmc/combine_two_ordered_lists.elmc:112-134 | the program shows them so |
| MergeRuns.OnlyAddressesChange | assembly/lmc/combine_two_ordered_lists.elmc:32-37 | in every state of a run that fits, every program and constant cell but six is as loaded, and those six keep their operation and point into the array once set |
| MergeRuns.ListsAreInPlace | assembly/lmc/combine_two_ordered_lists.elmc:60-100 | once reading is over the array holds L1,0,L2,0 contiguously and s2array points at the second list |
| MergeRuns.Simulate | assembly/lmc/combine_two_ordered_lists.elmc:20-30 | running the machine cell by cell stops, halted exactly on inputs that fit, with the merge in the out-box |
| PathSearch.PopStretch | lisp/triad-bfs.lisp:118-135 | popping a stretch of the queue that misses the goal leaves the rest followed by the extensions of the stretch |
| PathSearch.FirstEntryCounts | lisp/triad-bfs.lisp:132-135 | a node's neighbours are those of its first entry in the net |
| PathSearch.NoEntryNoNeighbours | lisp/triad-bfs.lisp:132-135 | a node without an entry has none, so a path to it is not extended |
| PathSearch.LevelMembers | lisp/triad-bfs.lisp:132-135 | a level of the queue holds exactly the walks of that many steps |
| PathSearch.LevelInOrder | lisp/triad-bfs.lisp:118-135 | and holds them in adjacency-list order, up to repetitions |
| PathSearch.StopAt | lisp/triad-bfs.lisp:118-139 | the search stops at the first path of the first level that gets to the goal, after a computed number of calls, or at the first empty level |
| PathSearch.FindsExactlyTheCanonicalWalk | lisp/triad-bfs.lisp:118-139 | the search returns v if and only if v is a walk to the end, no walk is shorter, and v precedes every other shortest walk in adjacency-list order |
| PathSearch.BoundedExactlyWithoutCycle | lisp/triad-bfs.lisp:118-135 | walks from a start are bounded if and only if none of them meets a cycle, and then by the length of the net |
| PathSearch.EndsExactlyWhen | lisp/triad-bfs.lisp:118-139 | the search ends if and only if the end can be reached or no cycle lies ahead; it ends empty-handed if and only if neither a walk nor a cycle exists |
| PathSearch.SearchForEver | lisp/triad-bfs.lisp:118-139 | from a node that is its own only neighbour the search for another node never ends |
| Packets.Transactions.SetTransactionStatus | java/banknetworkthreads/src/banknetworkthreads/Transactions.java:154-157 | the status setter writes the error field |
| Packets.Transactions.CopyFrom | java/banknetworkthreads/src/banknetworkthreads/Network.java:351-356 | the copying common to the four transfers, field by field, with the message in the error field |
| Rings.PutAppendsExactlyWhenNotFull | java/banknetworkthreads/src/banknetworkthreads/Network.java:349-373 | a put appends to the packets in flight if and only if the flag is not full, for every ring size |
| Rings.TakeRemovesExactlyWhenNotEmpty | java/banknetworkthreads/src/banknetworkthreads/Network.java:445-470 | a take copies and removes the oldest packet if and only if the flag is not empty |
| Rings.FlagIsExact | java/banknetworkthreads/src/banknetworkthreads/Network.java:364-370 | the flag is empty exactly at no packet in flight and full exactly at the ring's size |
| Networks.Network.constructor | java/banknetworkthreads/src/banknetworkthreads/Network.java:24-54 | a new network has two empty rings over records of their own |
| Networks.Network.Send | java/banknetworkthreads/src/banknetworkthreads/Network.java:349-373 | the send method updates slots, index and flag in place as the ring's put does, and leaves the other ring alone |
| Networks.Network.TransferIn | java/banknetworkthreads/src/banknetworkthreads/Network.java:445-470 | likewise for the take that the server makes |
| Networks.Network.TransferOut | java/banknetworkthreads/src/banknetworkthreads/Network.java:413-437 | likewise for the put that the server makes |
| Networks.Network.Receive | java/banknetworkthreads/src/banknetworkthreads/Network.java:380-404 | likewise for the take that the receiving client makes |
| Networks.Network.Connect | java/banknetworkthreads/src/banknetworkthreads/Network.java:479-497 | connecting sets the status of the given side and leaves the other's |
| Networks.Network.Disconnect | java/banknetworkthreads/src/banknetworkthreads/Network.java:505-522 | disconnecting likewise |
| Clients.Client.SendNext | java/banknetworkthreads/src/banknetworkthreads/Client.java:156-163 | one turn of the sending loop marks its record and puts it behind the packets in flight |
| Clients.Client.ReceiveNext | java/banknetworkthreads/src/banknetworkthreads/Client.java:185-190 | one turn of the receiving loop takes the oldest answer and displays it |
| Servers.FindAccount | java/banknetworkthreads/src/banknetworkthreads/Server.java:159-170 | the first account with the number, or the number of accounts where the source runs off its array |
| Servers.Server.Find | java/banknetworkthreads/src/banknetworkthreads/Server.java:159-170 | the search loop finds that account, or comes to the end of the array, where the source ends with an exception |
| Servers.Server.Deposit | java/banknetworkthreads/src/banknetworkthreads/Server.java:250-256 | adds the amount to one balance and changes no other account |
| Servers.Server.Withdraw | java/banknetworkthreads/src/banknetworkthreads/Server.java:264-270 | subtracts the amount from one balance, negative results included, and changes no other account |
| Servers.OperationsMean | java/banknetworkthreads/src/banknetworkthreads/Server.java:200-228 | a deposit adds its amount to the balance of the account found, a withdrawal subtracts it, a query changes nothing, and the new balance goes back marked done; an unknown operation changes nothing and goes back as it came |
| Servers.Server.Apply | java/banknetworkthreads/src/banknetworkthreads/Server.java:200-228 | the three operations change the account at the index and the packet as the sequential specification says |
| Servers.Server.Process | java/banknetworkthreads/src/banknetworkthreads/Server.java:199-228 | between the two transfers the accounts and the packet change as the sequential specification says, or nothing changes and the exception is reported exactly if no account has the number |
| Servers.MoneyIsConserved | java/banknetworkthreads/src/banknetworkthreads/Server.java:199-283 | the sum of the balances after n transactions is the initial sum plus the amounts of the deposits less the amounts of the withdrawals among them |
| Servers.AccountsAreSeparate | java/banknetworkthreads/src/banknetworkthreads/Server.java:199-283 | each account has its initial balance plus its own deposits less its own withdrawals |
| Servers.ResultTellsTheBalance | java/banknetworkthreads/src/banknetworkthreads/Server.java:199-228 | the answer to a known operation carries the account's initial balance plus its deposits less its withdrawals up to and including this transaction |
| BankInvariant.StepKeepsInv | java/banknetworkthreads/src/banknetworkthreads/Network.java:349-549 | every step of every thread keeps the invariant that relates rings, counters, accounts and displays to the sequential execution |
| BankInvariant.RunKeepsInv | java/banknetworkthreads/src/banknetworkthreads/Network.java:349-549 | hence every interleaving keeps it |
| BankRuns.DisplaysAreSequential | java/banknetworkthreads/src/banknetworkthreads/Client.java:174-194 | for any file and every interleaving the displayed packets are a prefix of the answers of a sequential server up to the first transaction without an account, in file order, and an answer to every transaction when the receiver is done |
| BankRuns.DisplaysTellTheBalances | java/banknetworkthreads/src/banknetworkthreads/Client.java:174-194 | in every interleaving the k-th packet displayed, counted from 0, tells for a known operation its account's initial balance plus deposits less withdrawals among the first k+1 transactions, and is otherwise the file's with status done |
| BankRuns.RingsHoldThePacketsInFlight | java/banknetworkthreads/src/banknetworkthreads/Network.java:362-370 | at every moment both rings hold exactly the packets between the counters, oldest first, and full and empty are exact |
| BankRuns.TransfersAreSafe | java/banknetworkthreads/src/banknetworkthreads/Server.java:183-236 | no reachable transfer overwrites a packet in flight or reads a slot twice |
| BankRuns.GuardsAreStable | java/banknetworkthreads/src/banknetworkthreads/Client.java:153-162 | a guard seen by its own thread stays true under the steps of the others |
| BankRuns.BalancesAddUp | java/banknetworkthreads/src/banknetworkthreads/Server.java:199-228 | in every reachable state total and single balances are the initial ones plus the deposits less the withdrawals of the applied transactions |
| BankRuns.CrashComesAtTheMissingAccount | java/banknetworkthreads/src/banknetworkthreads/Server.java:159-199 | a server that has crashed has processed exactly the transactions before the first without an account, and only answers to these are on display |
| BankProgress.CrashesExactlyWhenAnAccountIsMissing | java/banknetworkthreads/src/banknetworkthreads/Server.java:159-199 | some schedule crashes the server if and only if some transaction names no account |
| BankProgress.FairRunsCrash | java/banknetworkthreads/src/banknetworkthreads/Server.java:159-199 | and then every fair one does |
| BankProgress.NoDeadlock | java/banknetworkthreads/src/banknetworkthreads/Client.java:150-192 | in every reachable state that has neither finished nor crashed some thread has a step that is not a turn of a busy-wait, and it lowers the measure |
| BankProgress.StepsFall | java/banknetworkthreads/src/banknetworkthreads/Server.java:183-236 | a step that is not a turn of a busy-wait lowers the measure, and a turn of one never raises it |
| BankProgress.GettingOnIsStable | java/banknetworkthreads/src/banknetworkthreads/Server.java:186-230 | a thread that can get on still can after any step of another |
| BankProgress.FairRunsEnd | java/banknetworkthreads/src/banknetworkthreads/BankDriver.java:9-24 | after 16 turns of every thread for each transaction and 20 more, every run has finished or crashed |
| BankProgress.FairRunsFinish | java/banknetworkthreads/src/banknetworkthreads/Server.java:301-321 | if every transaction names an account, all threads have then ended, everything is displayed and the accounts are the sequential ones |
| BankProgress.FinishesExactlyWhen | java/banknetworkthreads/src/banknetworkthreads/BankDriver.java:9-24 | all fair runs of that length finish if and only if there is a transaction and every transaction names an account |
| BankProgress.DisconnectedMeansDone | java/banknetworkthreads/src/banknetworkthreads/Client.java:232-239 | once the client has disconnected everything is processed and displayed, both rings are empty and the server makes no further transfer |
| BankProgress.EmptyFileCanHang | java/banknetworkthreads/src/banknetworkthreads/Client.java:219-239 | with no transactions there is a schedule after which the server never ends |
| BankProgress.ShutdownIsFinalExactlyWhenNotEmpty | java/banknetworkthreads/src/banknetworkthreads/Client.java:219-239 | a disconnected client stays so in every run if and only if the file has a transaction |
| Hal.Aspects.IncShutdownRequestsCounter | java/aspectj/space-forensics/Authorization.aj:24-32 | the map entry of one officer grows by one and no other changes |
| Hal.Aspects.Kill | java/aspectj/space-forensics/Authorization.aj:35-38 | the officer's life flag is cleared, after the logger has written its line |
| Hal.Aspects.RefuseShutDown | java/aspectj/space-forensics/Authorization.aj:55-72 | the advice updates the map, the console, the log and the officer as the specification says |
| Hal.Aspects.Send | java/aspectj/space-forensics/LifeSupport.aj:13-30 | a message through the three aspects in their precedence updates the fields and answers as the specification says |
| Hal.CountersStopAtThree | java/aspectj/space-forensics/Authorization.aj:55-72 | after every series of messages an officer's counter is its requests up to three, and it lives if and only if it has made fewer than three |
| Hal.CrewIsKeptOut | java/aspectj/space-forensics/LifeSupport.aj:15-30 | a message is answered by the computer if and only if a living officer asks for status or date; only a living officer's shutDown changes anything but the log |
| Hal.WarningsEscalate | java/aspectj/space-forensics/Authorization.aj:59-71 | a message adds the plain refusal if and only if it is the officer's first shutDown, the refusal that asks not to be asked again at the second, the retirement at the third, and no line otherwise |
| Hal.ScreenShowsTheWarnings | java/aspectj/space-forensics/Authorization.aj:59-71 | the screen shows, over any series of messages, the three texts at each officer's first, second and third request, in the order of the requests, and nothing else |
| Hal.DeliverAgrees | java/aspectj/space-forensics/Logger.aj:38-66 | one message extends the log so that reading it still agrees with counters and life flags |
| Hal.LogTellsAll | java/aspectj/space-forensics/Logger.aj:38-66 | from the log of any series a reader recovers every counter and life flag, if names differ |
| Hal.LogDeterminesTheStateExactlyWhenNamesDiffer | java/aspectj/space-forensics/Logger.aj:40-54 | the log determines counters and life flags if and only if no two officers share a name |
| Hal.LogTellsTheMessages | java/aspectj/space-forensics/Logger.aj:38-44 | the operations that the log has under Crew are the messages sent, in order |
| Hal.KillFollowsTheThirdRequest | java/aspectj/space-forensics/Authorization.aj:67-71 | a message adds a kill line, just after its own two lines, if and only if it is the officer's third shutDown message |
| Hal.KillLinesCountTheRetired | java/aspectj/space-forensics/Logger.aj:57-66 | the log has as many kill lines under a name as officers of that name have made three requests |
| Echo.HandleKeepsTheStream | cpp/async/nonblocking/server.cpp:51-81 | every handler keeps the stream equation and the flags in step with the state |
| Echo.EchoesTheStream | cpp/async/nonblocking/server.cpp:15-32 | in every run, whatever the socket does, bytes written followed by the pending buffer are the bytes read, in order; the state is writing if and only if something is pending; one wait is outstanding |
| Echo.OneHandlerIsPossible | cpp/async/nonblocking/server.cpp:51-81 | in an open connection the handler its state names can run and no other |
| Echo.StaysOpenExactlyWhen | cpp/async/nonblocking/server.cpp:51-81 | an event leaves the connection open if and only if neither its wait nor, after a wait without error, its transfer failed |
| Echo.EventsMoveBytes | cpp/async/nonblocking/server.cpp:15-49 | the bytes that a read brings are exactly those then pending, and a write takes from the front of the pending ones exactly what it hands to the socket |
| Echo.OpenWithoutFailure | cpp/async/nonblocking/server.cpp:51-81 | in a run without failures the connection is open |
| Echo.CanAlwaysEcho | cpp/async/nonblocking/server.cpp:57-79 | after any run without failures a read can come, or one write can send all that is pending, after which everything read has been written and the connection is open |
| Echo.ClosingLosesNothingExactlyWhen | cpp/async/nonblocking/server.cpp:57-79 | an event that closes the connection leaves nothing unsent if and only if it is a failed wait for reading, a failed read that brought nothing, or a failed write that sent all there was |
| Echo.HalfCloseLosesTheRequest | cpp/async/nonblocking/server.cpp:57-64 | bytes that come together with an error, as from a peer that closes its side, are read and never written |
| Echo.Connection.OnReadable | cpp/async/nonblocking/server.cpp:57-65 | the read callback updates the fields as the specification says |
| Echo.Connection.OnWritable | cpp/async/nonblocking/server.cpp:71-79 | likewise the write callback |
| Trie.SplitJoins | python/url_to_tree.py:12-12 | splitting loses nothing and no part contains a slash |
| Trie.StripTakesTheEdges | python/url_to_tree.py:12-12 | stripping takes away the white space at both edges, all of it and nothing else |
| Trie.TreeHoldsThePrefixes | python/url_to_tree.py:11-17 | for any paths no dictionary has a key twice, and a key sequence leads somewhere if and only if it is a prefix of a split path |
| Trie.PrintsOneLineForEachPrefix | python/url_to_tree.py:19-25 | the printing has one line for each distinct nonempty prefix, in preorder, with four spaces for each level |
| Trie.TreesPrintDifferently | python/url_to_tree.py:19-25 | two trees with keys from a set in which no key is another after four, eight, ... spaces print the same lines only if they are the same ordered tree |
| Trie.DictsPrintDifferentlyExactlyWhen | python/url_to_tree.py:14-25 | for the trees without double keys that is so if and only if the set has no such key |
| PrintedPaths.BuildHasLeaves | python/url_to_tree.py:11-17 | no entry without entries below it has a key that ends with white space, because paths are stripped |
| PrintedPaths.PrintingDeterminesExactlyWhen | python/url_to_tree.py:9-25 | for all paths whose parts come from a set: equal lines mean equal trees if and only if the set has no part b that does not end with white space and that is also there after four, eight, ... spaces, or no part that can begin a path |
| PrintedPaths.PrintingDeterminesTheTree | python/url_to_tree.py:9-25 | two lists of paths whose parts do not start with four spaces print the same lines only if they build the same tree |
| PrintedPaths.SpacesCanMislead | python/url_to_tree.py:9-25 | a/b/c alone, and a/b with a/ and an indented c, print the same lines and build different trees |
| TreePrinter.KeysInOrderOfFirstMention | python/url_to_tree.py:14-17 | the keys under any key sequence come in the order in which the paths first mention them there |
| TreePrinter.LinesInOrderOfFirstMention | python/url_to_tree.py:19-23 | no line comes before that of an entry above it, and lines under the same entry come in the order of first mention |
| TreePrinter.Put | python/url_to_tree.py:15-16 | adding a key to a dictionary in memory adds just that key sequence to what the dictionaries hold |
| TreePrinter.Descend | python/url_to_tree.py:15-17 | the body of the inner loop keeps the dictionaries in memory those of the tree, none shared |
| TreePrinter.Add | python/url_to_tree.py:12-17 | the inner loop inserts the parts of one path |
| TreePrinter.PrintNode | python/url_to_tree.py:19-23 | the recursive printer on the dictionaries in memory prints the printing of the tree |
| TreePrinter.PrintTreeOf | python/url_to_tree.py:9-25 | the whole of print_tree, on mutable dictionaries, gives the lines of the specified printing |
| ExtendsFacts.PathsReverse | prolog/java-analysis.pl:39-63 | there are as many paths upward through the extends facts as downward |
| Inheritance.CountInheritance | prolog/java-analysis.pl:39-44 | how often the upward rules give an answer, counted over the facts |
| Inheritance.CountDescendence | prolog/java-analysis.pl:58-63 | how often the downward rules give an answer, counted over the facts reversed |
| Inheritance.WeightTestsTheLastStep | prolog/java-analysis.pl:39-42 | for any facts: an ancestor comes once for each path, times how often it and the child of the last step are declared; no other class of the path is tested |
| Inheritance.ChainCountsWays | prolog/java-analysis.pl:44-44 | among classes declared once an ancestor is in the chain once for each path up to it |
| Inheritance.ChainDownCountsWays | prolog/java-analysis.pl:63-63 | among classes declared once a descendant is in the downward chain once for each path up from it |
| ChainOrder.ChainInOrder | prolog/java-analysis.pl:39-44 | for any facts: the answers of the first rule come first, then, for each extends fact of the class in the order of the facts, the chain of its father |
| ChainOrder.ChainDownInOrder | prolog/java-analysis.pl:58-63 | likewise downward, for each extends fact of a child |
| ChainOrder.FathersInClassOrder | prolog/java-analysis.pl:39-40 | the first rule answers in the order of the class facts |
| ChainOrder.ChainGoesUp | prolog/java-analysis.pl:39-44 | if classes are declared once and extend at most one class, the chain goes from father to father, nearest first |
| ChainOrder.ChainStepByStep | prolog/java-analysis.pl:39-44 | the class extends the first of the chain, each of the chain extends the next, and the last extends none |
| ChainOrder.ChainGoesDown | prolog/java-analysis.pl:58-63 | if classes are declared once and extended at most once, the downward chain goes from child to child, nearest first |
| ChainOrder.ChainDownStepByStep | prolog/java-analysis.pl:58-63 | the first of the downward chain extends the class, each next one extends the one before, and the last is extended by none |
| Duality.DownTestsTheFirstStep | prolog/java-analysis.pl:58-61 | for any facts: a descendant comes once for each path, times how often it and the father of the first step are declared |
| Duality.ChainsAreDual | prolog/java-analysis.pl:44-63 | if, wherever one extends fact follows another and the rules end there in both directions, the class between is undeclared or the ends are declared equally often, A is in the chain of C as often as C is in the downward chain of A |
| Duality.DualExactlyWhenBalanced | prolog/java-analysis.pl:39-63 | for any facts that holds for all pairs of chains if and only if the facts are so |
| Inheritance.UndeclaredFathersBreakDuality | prolog/java-analysis.pl:39-61 | with an undeclared ancestor the two chains disagree |
| Interfaces.ChainsExistExactlyWithoutCycle | prolog/java-analysis.pl:41-61 | the rules end, upward or downward, if and only if the facts lead from the class into no cycle |
| Interfaces.ChainHoldsTheInherited | prolog/java-analysis.pl:39-44 | for any facts: the chain holds exactly the classes to which a walk of extends facts leads whose last two classes are declared |
| Interfaces.ChainDownHoldsTheDescended | prolog/java-analysis.pl:58-63 | for any facts: the downward chain holds exactly the classes from which a walk leads up whose first two classes are declared |
| Interfaces.AllDeclared | prolog/java-analysis.pl:39-61 | where all classes of extends facts are declared, these are all classes that a walk reaches |
| Interfaces.InterfaceListsEachMethodOnce | prolog/java-analysis.pl:47-55 | a method is in the interface once if the class or a class it inherits from defines or refines it, and not otherwise |
| Interfaces.InterfaceKeepsOrder | prolog/java-analysis.pl:51-55 | the methods of an interface come in the order in which the rules first mention them, those of the class before those it only inherits |
| ChainOrder.DefinedBeforeRefined | prolog/java-analysis.pl:47-47 | the methods of a class are those of its defining facts in their order, all of them, and after these those of its refining facts |
| ChainOrder.InterfaceFollowsTheChain | prolog/java-analysis.pl:48-55 | an interface lists the methods of the class, then those of each class along its chain that are new there, and those of one class in the order of its facts |
| ChainOrder.ProvidesExactlyWhen | prolog/java-analysis.pl:65-68 | a list is provided if and only if the interface is declared, the class implements it and the downward rules end; it begins with the class |
| Interfaces.ProvidersAreTheDescended | prolog/java-analysis.pl:65-68 | the list for an implementing class is that class and the classes that descend from it |
| Demux.AcceptExplains | python/http3_client.py:179-200 | one call or event keeps the dictionaries of a stream equal to what the trace says of it |
| Demux.DictionariesExplained | python/http3_client.py:179-228 | after every trace with fresh stream ids each dictionary holds what its consumer is meant to see: a future has exactly its stream's events up to the first that ends it; event and waiter maps have equal key sets |
| Demux.FutureGetsItsEvents | python/http3_client.py:179-187 | a request's future resolves if and only if headers or data on its stream end it, to exactly these events in order up to the first that ends it; until then its queue holds all of them and its waiter is there |
| Demux.SocketGetsItsEvents | python/http3_client.py:189-191 | a web socket holds exactly the headers and data that have come on its stream since it was opened, in order |
| Demux.PushGetsItsEvents | python/http3_client.py:193-200 | a push holds its promise and after it exactly the headers and data that carry its id on streams that no request or socket has claimed, in order |
| Demux.ResultsAreFinal | python/http3_client.py:185-187 | a future is resolved at most once: its result never changes and no waiter is left |
| Demux.HttpClient.SendRequest | python/http3_client.py:208-228 | a request opens an empty event queue and a waiter under its stream id |
| Demux.HttpClient.OpenWebSocket | python/http3_client.py:153-158 | a web socket is entered under its stream id and nothing else changes |
| Demux.HttpClient.HttpEventReceived | python/http3_client.py:179-200 | the method updates the dictionaries as the specification says, and with equal key sets no waiter is missing |

## Left out

- Clients.Client.SendNext: one turn of the loop; the busy-wait before it and its interleaving with the other threads are in module Bank.
- Clients.Client.ReceiveNext: one turn of the loop, for the same reason; displaying a record means appending what it says.
- Servers.Server.Find: an index past the last account stands for the exception that ends the source's search there.
- Hal.DeliverAgrees: is the step of Hal.LogTellsAll and needs distinct names as that does.
- Hal.LogTellsAll: needs distinct names, because the log has names only; Hal.LogDeterminesTheStateExactlyWhenNamesDiffer shows that nothing less is enough.
- Echo.OneHandlerIsPossible: says that a handler may run, not that asio runs it.
- Demux.DictionariesExplained: futures that are cancelled or time out are not part of the model.
- Java locks and the Java memory model: every call of a Network method is one step.
- Rounding of double balances: amounts and balances are reals.
- Reading transactions and accounts from files, console output other than the aspects' warnings, debug lines, timings.
- The Network accessors, the IP addresses as strings, port numbers and the account owner fields: no result depends on them.
- Weaving of aspects, the log file and its times, messages of ground controllers and other personnel.
- asio, QUIC, the HTTP/3 and web socket libraries.
- The subprotocol headers and the text messages inside a web socket: the model ends at the events it is given.
- The extraction of a path from a URL at the end of url_to_tree.py, and characters beyond Latin-1 in strip.
- Queries with an unbound class, is_bloated and the declares facts of java-analysis.pl.
- The unfinished first search, filter-visited and filter-all-visited of triad-bfs.lisp: the second search does not use them.
- cpp/async/nonblocking.cpp, which has the same text as the modelled server, and its accept loop.
- The remaining programs of the repository, which are input and output, user interface or thin wrappers over libraries.

# DockerSim: a Dafny model of its protocols and index structures

DockerSim simulates container clouds as modules that exchange messages. This project
models five of its components and proves what they promise, over every run and every
input:

- **Message passing and the master/worker application** (`Matching`, `MatchingRuns`,
  `Hpc`, `HpcGroup`, `HpcTheorems`, `HpcTermination`, `Barrier`, `BarrierRuns`,
  `Connections`). A group is a state machine over its ranks and a multiset of messages in
  flight. A step is a rank doing one branch of its state machine, an answer of the
  operating system, or the delivery of any one message in flight; a tail call of the
  source counts as a step of its own, so the model allows more interleavings than the
  simulator has. Ranks are numbered within their group, which `Connections.RelativeRanks`
  and `Connections.OpensIsSymmetric` justify. The invariant behind all results is that one
  token per worker circulates between it and the master.
- **The message trace** (`Text`, `Traces`, `TraceLimits`, `Packing`, `Messages`, `Relay`):
  printing is injective, a printed prefix recognises sub-requests exactly, serialisation is
  a round trip exactly when nothing overflows, and a response retraces its request.
- **Block splitting** (`Arithmetic`, `MainMemory`): writes are tiled, reads are covered,
  and a read is answered exactly when the blocks it needs have arrived.
- **The tables of the network manager** (`IpText`, `PortsTable`, `VirtualIps`,
  `NetworkManager`): the halving search refines a linear scan, and the address counter,
  which is re-read from its own printed form, counts in base 257.
- **The Docker daemon** (`GateManager`, `ContainerGates`, `CommIds`, `Migration`,
  `MigrationRuns`, `MigrationEvents`, `MigrationTwins`, `CommIdRuns`, `HeldRequests`,
  `DockerDaemon`): gates stay in lockstep, and a migration neither loses nor reorders
  requests.

`Wrappers` and `Sequences` hold what several of these need.

Code that works in place is a class whose methods are proved against functions of the
old state; the promises are lemmas about these functions and the runs built from them.
Fields that only record what happened (`tag`, `iter`, `history`, `received`, `sent`,
`answers`, `owners`, `exits`, `posts`, `served`, `messages`) are read by no rule.

Check everything with `dafny verify dfyconfig.toml`.

## What the code does not promise

Each of these is stated as a lemma, with the exact condition where there is one.

- A table of one node answers every address (`PortsTable.LookupRightExactly`).
- The comparison of addresses is not a total order. In a table of any order the halving
  search finds a node exactly when the nodes on the path to it compare to the right side
  (`PortsTable.HalvingFindsExactly`); two nodes are always found exactly when they are
  comparable (`PortsTable.PairNeedsComparability`). The linear search makes up for it.
- A host name that starts with the text of a whole node and a bar passes itself off as
  two nodes, and the test for sub-requests is right exactly when there is none
  (`TraceLimits.FitIsRightExactly`, `TraceLimits.TextIdentifiesExactly`). A name with a
  bar that has no at sign does no harm (`Traces.PlainIsHonest`).
- A child whose last node has no modules is no piece of anything, but that test says it
  is when the name of the node has no dot and no colon and the child without it fits, or
  when the name imitates the last node of the parent, as "a@1,2:3.4" does; and only then
  (`TraceLimits.EmptyNodeFitsExactly`, `TraceLimits.ParentIsNamed`).
- Unpacking drops modules without requests and cuts later requests to 32 bits
  (`Packing.RoundTrip`).
- A second answer to one sub-request clears the first (`MainMemory.ArrivedOddly`), while
  the count of answers goes on (`MainMemory.CountIsRightExactly`).
- The counter of virtual addresses carries at 257: it issues n addresses that fit in
  octets exactly when the last octet plus n is at most 255
  (`VirtualIps.IssuesIPv4Exactly`).
- Every run of a group ends, with all ranks finished, exactly when workersSet is at least
  2 and numIterations is below 4294967295 (`HpcTermination.EveryRunCompletesExactly`).
  With numIterations equal to 0 one iteration runs. The value 4294967295 is what -1 in
  the configuration becomes.
- A daemon takes itself to be ready for migration while application requests are
  outstanding, when applications have answered as many requests of the operating system
  (`MigrationRuns.PreparedExactly`); a stop order that is not answered at once never is
  (`MigrationRuns.StopIsAnsweredExactly`).
- Requests held back during a migration leave without the rewriting that a direct
  forward does (`MigrationTwins.MigrationIsTransparentExactly`). Of the requests forwarded
  directly, other than network messages do not get their identifier back, and network
  messages without one get a position (`CommIdRuns.CommIdComesBackExactly`), although the
  header of the daemon promises the original value for all.
- A request held back leaves by the gate of another container when its own has been
  disconnected and the other has got the position
  (`HeldRequests.ReleasedAreRightExactly`, `HeldRequests.CarelessMisdelivers`).

## Model

| member | source | states |
|---|---|---|
| `Matching.FirstFit` | src/Applications/Libraries_API/MPI_Base/MPI_Base.cc:816-850 | the index found is the earliest listed call that fits; none before it fits |
| `Matching.SynchronizeStarves` | src/Applications/Libraries_API/MPI_Base/MPI_Base.cc:705-788 | after a synchronisation a rank that is still blocked has no fitting call listed; a match removes exactly one listed, fitting call and unblocks the rank; no match changes nothing |
| `Matching.MpiBase.SearchMPICall` | src/Applications/Libraries_API/MPI_Base/MPI_Base.cc:816-850 | finds a call exactly when a listed one has the type, size and (unless any sender is asked for) sender, and then the earliest such |
| `Matching.MpiBase.DeleteMPICall` | src/Applications/Libraries_API/MPI_Base/MPI_Base.cc:853-856 | removes that one call and keeps the order of the others |
| `Matching.MpiBase.SynchronizeCall` | src/Applications/Libraries_API/MPI_Base/MPI_Base.cc:705-788 | new state and outcome of a matching step, against the specification `Synchronize`; an any-sender call takes over the sender of its match |
| `Matching.MpiBase.InsertMPICall` | src/Applications/Libraries_API/MPI_Base/MPI_Base.cc:791-813 | a call made from the message, with its sender as root if it is a scatter or a broadcast, goes behind all listed ones |
| `Matching.MpiBase.ProcessMPICallRequest` | src/Applications/Libraries_API/MPI_Base/MPI_Base.cc:114-154 | a send, scatter or broadcast is listed and a matching step follows; the messages of barriers and gathers and unknown ones go elsewhere and leave the list alone |
| `Matching.MpiBase.MpiBarrierUp` | src/Applications/Libraries_API/MPI_Base/MPI_Base.cc:432-442 | the blocking call ends |
| `Matching.MpiBase.MpiRecv` | src/Applications/Libraries_API/MPI_Base/MPI_Base.cc:362-376 | a blocking receive becomes the current call and a matching step follows |
| `MatchingRuns.RunsAreGood` | src/Applications/Libraries_API/MPI_Base/MPI_Base.cc:705-856 | over any sequence of arrivals, blocking calls and releases: arrived equals matched plus listed, the list is in arrival order, calls of one class never overtake, a blocked rank overlooks nothing |
| `MatchingRuns.MatchedAtMostOnce` | src/Applications/Libraries_API/MPI_Base/MPI_Base.cc:705-788 | no call is matched twice, and none is matched and still listed |
| `MatchingRuns.MatchedInArrivalOrder` | src/Applications/Libraries_API/MPI_Base/MPI_Base.cc:816-850 | when a call is matched, every earlier arrival with its type, sender and size was matched before it (section 3.5 of MPI 3.1) |
| `MatchingRuns.BlockedMeansNothingFits` | src/Applications/Libraries_API/MPI_Base/MPI_Base.cc:761-787 | in every run, a call that is listed while a rank is blocked does not fit the blocking call |
| `MatchingRuns.MatchedIsWhatWasAsked` | src/Applications/Libraries_API/MPI_Base/MPI_Base.cc:717-785 | over any run, field by field: a call matched to a receive is a send of its size, from its sender if it names one; to a scatter or a broadcast its like, of its size, from its sender or root |
| `MatchingRuns.ListedIsNotAsked` | src/Applications/Libraries_API/MPI_Base/MPI_Base.cc:717-785 | while a rank is blocked, no listed call is what it asks for, field by field |
| `MatchingRuns.MatchedIsTheEarliestAsked` | src/Applications/Libraries_API/MPI_Base/MPI_Base.cc:816-850 | whatever arrived before a matched call, from any sender, and is what that match asked for, was matched before it |
| `MatchingRuns.LastSynchronized` | src/Applications/Libraries_API/MPI_Base/MPI_Base.cc:773-777 | the last synchronised call is the last one matched, with the sender of its match where it named none |
| `MatchingRuns.FirstFitDoesNotOvertake` | src/Applications/Libraries_API/MPI_Base/MPI_Base.cc:816-850 | taking the first fit keeps the order of every class |
| `MatchingRuns.MatchingConserves` | src/Applications/Libraries_API/MPI_Base/MPI_Base.cc:853-856 | a matching step neither loses nor makes up a call |
| `Hpc.ApplicationHPC.constructor` | src/Applications/Apps/ApplicationHPC/ApplicationHPC.cc:77-174 | the initial fields; totalResponses holds whatever was in memory |
| `Hpc.ApplicationHPC.CalculateNextState` | src/Applications/Apps/ApplicationHPC/ApplicationHPC.cc:276-520 | one step of a process: new fields and messages sent, against `NextState` |
| `Hpc.ApplicationHPC.CalculateMaster` | src/Applications/Apps/ApplicationHPC/ApplicationHPC.cc:279-401 | the branches of the master, against `MasterNext` |
| `Hpc.ApplicationHPC.CalculateWorker` | src/Applications/Apps/ApplicationHPC/ApplicationHPC.cc:404-519 | the branches of a worker, against `WorkerNext` |
| `Hpc.ApplicationHPC.DeliverData` | src/Applications/Apps/ApplicationHPC/ApplicationHPC.cc:628-648 | one message per worker of the group, of the size the workers ask for |
| `Hpc.ApplicationHPC.ReadInputData` | src/Applications/Apps/ApplicationHPC/ApplicationHPC.cc:560-587 | a read request, or an empty counter when the workers read |
| `Hpc.ApplicationHPC.WrittingData` | src/Applications/Apps/ApplicationHPC/ApplicationHPC.cc:676-702 | a write request, or an empty counter when the workers write |
| `Hpc.ApplicationHPC.NextIterationStep` | src/Applications/Apps/ApplicationHPC/ApplicationHPC.cc:522-553 | iteration count with its 32-bit wrap, and the end of the execution |
| `Hpc.ApplicationHPC.ProcessResponse` | src/Applications/Apps/ApplicationHPC/ApplicationHPC.cc:776-902 | a response lowers the counter exactly when it succeeded and the state expects it; otherwise the process halts |
| `Hpc.ApplicationHPC.MpiRecv` | src/Applications/Libraries_API/MPI_Base/MPI_Base.cc:362-376 | a receive that matches at once lets the process continue |
| `Hpc.ApplicationHPC.ProcessMpiMessage` | src/Applications/Libraries_API/MPI_Base/MPI_Base.cc:114-154 | an arriving message that matches lets the process continue |
| `Hpc.ApplicationHPC.MpiSend` | src/Applications/Libraries_API/MPI_Base/MPI_Base.cc:286-324 | the message sent, and no blocking call left behind |
| `HpcTheorems.RoundsAreExact` | src/Applications/Apps/ApplicationHPC/ApplicationHPC.cc:337-381 | in every reachable state, each finished iteration of the master matched exactly one result from each worker, all produced in that iteration; each worker matched its own data of that iteration |
| `HpcTheorems.IterationsInStep` | src/Applications/Apps/ApplicationHPC/ApplicationHPC.cc:522-553 | at every event boundary the iteration of a worker is the one of the master or one more |
| `HpcTheorems.NeverBelowZero` | src/Applications/Apps/ApplicationHPC/ApplicationHPC.cc:776-902 | totalResponses is positive wherever it is about to be lowered, every response meets a state that expects it, and no process halts |
| `HpcTheorems.StuckMeansFinished` | src/Applications/Apps/ApplicationHPC/ApplicationHPC.cc:276-553 | where no step of any rank or message is possible every rank has finished: no deadlock |
| `HpcTheorems.MaximalRunsComplete` | src/Applications/Apps/ApplicationHPC/ApplicationHPC.cc:276-553 | a run that cannot go on has done all iterations on all ranks and left no message behind; the answers each rank got from the operating system are exact: workersSet reads and writes per iteration where the master does the I/O, one per worker and iteration where the workers do, one memory and one CPU request per worker and iteration, one results file for who writes |
| `HpcTheorems.WorkersWorkInOrder` | src/Applications/Apps/ApplicationHPC/ApplicationHPC.cc:404-519 | in every reachable state a worker has sent no more results than it has written, and so on back through computing, memory and reading to the data it has matched, each as answered; and it is at most one result behind |
| `HpcTheorems.MasterWorksInOrder` | src/Applications/Apps/ApplicationHPC/ApplicationHPC.cc:279-401 | in every reachable state the master has sent whole rounds of data, none before that round was read, and written nothing of an iteration before all its results were matched |
| `HpcTheorems.MatchedSizes` | src/Applications/Apps/ApplicationHPC/ApplicationHPC.cc:628-666 | every result and every data message matched has the size of its slice stored in a signed int, or 64 bytes where the receiver does not get the slice with it |
| `HpcTheorems.WrongAnswersHalt` | src/Applications/Apps/ApplicationHPC/ApplicationHPC.cc:776-902 | an answer stops the process exactly when it is a failure, or one to a read or write in a state that issues none |
| `HpcTermination.RunsAreBounded` | src/Applications/Apps/ApplicationHPC/ApplicationHPC.cc:276-553 | no interleaving of a group takes more than rounds * (24 * workersSet - 12) steps, so every run ends |
| `HpcTermination.StepPays` | src/Applications/Apps/ApplicationHPC/ApplicationHPC.cc:276-520 | every single step of every rank, and every delivery, lowers the measure |
| `HpcTermination.EveryRunCompletesExactly` | src/Applications/Apps/ApplicationHPC/ApplicationHPC.cc:276-553 | all runs of a group end, with all its ranks finished, exactly when workersSet is at least 2 and numIterations is below 4294967295 |
| `HpcTermination.LargestNeverFinishes` | src/Applications/Apps/ApplicationHPC/ApplicationHPC.cc:522-553 | with numIterations equal to 4294967295 no rank of any run finishes, whatever workersSet is |
| `HpcTermination.SingletonNeverFinishes` | src/Applications/Apps/ApplicationHPC/ApplicationHPC.cc:337-381 | with workersSet equal to 1 no run finishes: the master waits for a result nobody sends |
| `HpcGroup.StepKeeps` | src/Applications/Apps/ApplicationHPC/ApplicationHPC.cc:276-520 | every step keeps the invariant: one token per worker circulates, as a message in flight, a listed call, or in a rank |
| `HpcGroup.SyncStep` | src/Applications/Libraries_API/MPI_Base/MPI_Base.cc:705-788 | a matching step of any rank hands a token over and keeps the invariant |
| `HpcGroup.DeliverStep` | src/Applications/Apps/ApplicationHPC/ApplicationHPC.cc:628-648 | delivering the data of an iteration keeps the invariant; no message of an earlier round is left |
| `HpcGroup.SendBackStep` | src/Applications/Apps/ApplicationHPC/ApplicationHPC.cc:738-755 | a worker that sends its result keeps the invariant |
| `HpcGroup.EveryWorkerOrOneMissing` | src/Applications/Apps/ApplicationHPC/ApplicationHPC.cc:337-381 | workersSet - 1 results with distinct senders come from all workers; with fewer, a worker is missing |
| `HpcGroup.MasterCloses` | src/Applications/Apps/ApplicationHPC/ApplicationHPC.cc:522-553 | closing an iteration on the master keeps all counts |
| `HpcGroup.WorkerCloses` | src/Applications/Apps/ApplicationHPC/ApplicationHPC.cc:522-553 | closing an iteration on a worker keeps all counts |
| `Barrier.BarrierMaster.constructor` | src/Applications/Libraries_API/MPI_Base/MPI_Base.cc:469-475 | one entry per process, all up |
| `Barrier.BarrierMaster.InitBarriers` | src/Applications/Libraries_API/MPI_Base/MPI_Base.cc:469-475 | resets every entry of the array |
| `Barrier.BarrierMaster.CheckBarriers` | src/Applications/Libraries_API/MPI_Base/MPI_Base.cc:478-529 | releases ranks 1 .. n-1 and itself exactly when no entry is up, and then the array has been reset |
| `Barrier.BarrierMaster.BarrierDown` | src/Applications/Libraries_API/MPI_Base/MPI_Base.cc:445-466 | a report marks its sender and runs the check; a rank outside the group is an error and changes nothing |
| `BarrierRuns.NextKeeps` | src/Applications/Libraries_API/MPI_Base/MPI_Base.cc:395-529 | every call, report and release keeps the invariant that each rank has exactly one of: a report on its way, a mark, a release on its way, or is outside |
| `BarrierRuns.UpsAreOthers` | src/Applications/Libraries_API/MPI_Base/MPI_Base.cc:507-521 | the releases sent are one for every rank but the master |
| `BarrierRuns.BarrierSafety` | src/Applications/Libraries_API/MPI_Base/MPI_Base.cc:395-529 | in every interleaving and delivery order no rank leaves its k-th barrier before every rank has entered its k-th; completed barriers of two ranks differ by at most one (section 5.3 of MPI 3.1) |
| `BarrierRuns.BarrierProgress` | src/Applications/Libraries_API/MPI_Base/MPI_Base.cc:395-529 | when all ranks are inside a barrier a message is still on its way |
| `BarrierRuns.DeliveredMeansReleased` | src/Applications/Libraries_API/MPI_Base/MPI_Base.cc:395-529 | once no message is on its way, a rank has left its k-th barrier exactly when every rank has entered its k-th |
| `Connections.ParseMachinesFile` | src/Applications/Libraries_API/MPI_Base/MPI_Base.cc:157-230 | the connections opened, the number of listens, and exactly when the configuration is rejected |
| `Connections.ChosenExactly` | src/Applications/Libraries_API/MPI_Base/MPI_Base.cc:185-225 | a rank is among the connections as often as it is configured if it passes the test, and else not |
| `Connections.RelativeRanks` | src/Applications/Libraries_API/MPI_Base/MPI_Base.cc:233-259 | rank 0 of a group is its only master and the master of every rank in it |
| `Connections.RangeIsGroup` | src/Applications/Libraries_API/MPI_Base/MPI_Base.cc:262-283 | the workers in the range of a master are exactly the other ranks it is the master of |
| `Connections.OpensIsStar` | src/Applications/Libraries_API/MPI_Base/MPI_Base.cc:195-222 | two ranks are connected exactly when one is the master of the other |
| `Connections.OpensIsSymmetric` | src/Applications/Libraries_API/MPI_Base/MPI_Base.cc:195-222 | both ends open a connection or neither does; connected ranks share their master |
| `Connections.OneGroupExactly` | src/Applications/Libraries_API/MPI_Base/MPI_Base.cc:195-203 | without groups there is one master, and every two ranks are connected or none, as allToAll says |
| `Connections.DestinationsAreOpened` | src/Applications/Apps/ApplicationHPC/ApplicationHPC.cc:628-648 | every rank the protocol sends to is connected |
| `Connections.DestinationsExistIff` | src/Applications/Libraries_API/MPI_Base/MPI_Base.cc:214-216 | all those destinations exist exactly when workersSet divides the number of processes |
| `Traces.TraceTextInjective` | src/Base/Messages/icancloud_Message.cc:294-343 | traces of honest hosts that print alike are equal; a host is honest if it does not start with the text of a whole node and a bar |
| `Traces.TextOfTwoNodes` | src/Base/Messages/icancloud_Message.cc:294-343 | the format of nodes: host, at sign, modules; apart by a bar |
| `Traces.TextOfTwoModules` | src/Base/Messages/icancloud_Message.cc:294-343 | the format of modules: identifier, comma, gate, colon, requests; apart by a slash |
| `Traces.TextOfTwoRequests` | src/Base/Messages/icancloud_Message.cc:294-343 | the format of requests: numbers apart by a dot |
| `Traces.PlainIsHonest` | src/Base/Messages/icancloud_Message.cc:294-343 | every host without a bar is honest, and every host without an at sign |
| `Traces.FitsExactly` | src/Base/Messages/icancloud_Message.cc:508-543 | for honest hosts and a child whose last node has a module: it fits exactly when it is the parent with one more request on its last module, which had one |
| `Traces.PieceFits` | src/Base/Messages/icancloud_Message.cc:546-581 | the same in one direction for any host names: a piece always fits |
| `TraceLimits.TextIdentifiesExactly` | src/Base/Messages/icancloud_Message.cc:294-343 | a trace is the only one of honest hosts with its text exactly when its own hosts are honest |
| `TraceLimits.FitIsRightExactly` | src/Base/Messages/icancloud_Message.cc:508-543 | the test is right about a parent, for all children of honest hosts, exactly when the hosts of the parent are honest |
| `TraceLimits.FitIsRightForChildExactly` | src/Base/Messages/icancloud_Message.cc:508-543 | the test is right about a child whose last node has a module, for all parents of honest hosts, exactly when the hosts of the child are honest or its last module has fewer than two requests |
| `TraceLimits.ImitatorFits` | src/Base/Messages/icancloud_Message.cc:508-543 | for every parent with a host that starts with the text of a node and a bar: a child that fits it and is no piece of it |
| `TraceLimits.EmptyNodeIsCutOff` | src/Base/Messages/icancloud_Message.cc:508-543 | behind any trace, a node without modules whose host has no dot and no colon makes no difference to the test |
| `TraceLimits.EmptyNodeFitsExactly` | src/Base/Messages/icancloud_Message.cc:508-543 | a child of honest hosts whose last node has no module is never a piece, and fits an honest parent exactly in two cases: the last host has no dot and no colon, there are nodes before it and they fit; or the last host is the text of the last node of the parent, a dot, and something without dots and colons |
| `TraceLimits.PlainEmptyNodeFitsExactly` | src/Base/Messages/icancloud_Message.cc:508-543 | if the last host has no at sign, only the first case is left, whatever the other hosts are |
| `TraceLimits.ParentIsNamed` | src/Base/Messages/icancloud_Message.cc:508-543 | for every parent with a module: a child of one node without modules that fits it, honest if the parent prints without a bar |
| `Messages.Message.AddNodeToTrace` | src/Base/Messages/icancloud_Message.cc:206-212 | a node without modules is appended |
| `Messages.Message.AddModuleToTrace` | src/Base/Messages/icancloud_Message.cc:180-192 | a module with its gate and first request goes on the last node |
| `Messages.Message.RemoveLastModuleFromTrace` | src/Base/Messages/icancloud_Message.cc:195-203 | the last module of the last node is dropped |
| `Messages.Message.AddRequestToTrace` | src/Base/Messages/icancloud_Message.cc:226-234 | the request, an int stored as unsigned long, goes on the last module |
| `Messages.Message.GetLastGateId` | src/Base/Messages/icancloud_Message.cc:248-257 | the gate of the last module of the last node |
| `Messages.Message.GetCurrentRequest` | src/Base/Messages/icancloud_Message.cc:272-281 | the last request of the last module of the last node, cut to an int |
| `Messages.Message.AddNodeTrace` | src/Base/Messages/icancloud_Message.cc:584-613 | the copied node equals the given one, module by module and request by request |
| `Messages.Message.Dup` | src/Base/Messages/icancloud_Message.cc:83-131 | a new message with an equal trace of its own |
| `Messages.Message.TraceToString` | src/Base/Messages/icancloud_Message.cc:294-343 | the nested printing loops against `TraceText` |
| `Messages.Message.FitWithParent` | src/Base/Messages/icancloud_Message.cc:508-543 | the search for dot and colon against `FitWithParent` |
| `Messages.Message.ParsimPack` | src/Base/Messages/icancloud_Message.cc:626-690 | the tokens written, against `Pack` |
| `Messages.Message.ParsimUnpack` | src/Base/Messages/icancloud_Message.cc:693-785 | the trace rebuilt and the tokens left, against `Unpack`; fails exactly where the buffer does not hold what is asked for |
| `Packing.UnpackPack` | src/Base/Messages/icancloud_Message.cc:626-785 | for any trace, any message read into and any following tokens: unpacking reads exactly what packing wrote and appends the normalised trace |
| `Packing.PackedSample` | src/Base/Messages/icancloud_Message.cc:626-690 | the order of the tokens written |
| `Packing.NormalExact` | src/Base/Messages/icancloud_Message.cc:626-785 | normalising changes nothing exactly when every module has a request, later requests survive an int, and no host has a NUL |
| `Packing.RoundTrip` | src/Base/Messages/icancloud_Message.cc:626-785 | into an empty message the round trip is the identity exactly under that condition |
| `Relay.Base.UpdateMessageTrace` | src/Base/icancloud_Base.cc:867-883 | a module records itself, the gate back, and its request number, which it increments with the wrap of 64 bits |
| `Relay.Base.HandleRequest` | src/Base/icancloud_Base.cc:132-168 | an incoming request is recorded and queued behind the others; the oldest one is taken unless a timer runs |
| `Relay.Base.SendRequestMessage` | src/Base/icancloud_Base.cc:177-191 | a request with a trace leaves unchanged; one without starts with this host and module |
| `Relay.Base.SendResponseMessage` | src/Base/icancloud_Base.cc:194-209 | the response leaves by the gate recorded last and loses that record |
| `Relay.Base.ProcessCurrentRequestMessage` | src/Base/icancloud_Base.cc:927-948 | first in, first out |
| `Relay.PopUndoesPush` | src/Base/icancloud_Base.cc:194-209 | popping a module undoes the push and yields its gate |
| `Relay.RecordsAreNumbered` | src/Base/icancloud_Base.cc:867-883 | the k-th request that a module records, whatever passes in between, gets one more module on its trace: this one, with its gate back and the number k modulo 2^64 |
| `Relay.RecordsAreApart` | src/Base/icancloud_Base.cc:867-883 | two requests recorded by one module fewer than 2^64 apart get different records |
| `Relay.ResponseRetraces` | src/Base/icancloud_Base.cc:177-209 | for any wiring, walk and starting trace the k-th hop of the response reaches the k-th last module with the trace the request had there; no pop from an empty trace |
| `MainMemory.NumIsTouched` | src/Base/Messages/SMS/SMS_MainMemory.cc:30-58 | the number of blocks computed is the number of blocks the range touches |
| `MainMemory.CountedMeansMeets` | src/Base/Messages/SMS/SMS_MainMemory.cc:30-58 | a block meets the range exactly when it is one of those counted from the first |
| `MainMemory.WriteTiles` | src/Base/Messages/SMS/SMS_MainMemory.cc:96-136 | the pieces of a write are non-empty, start at the offset, are contiguous, end with the range and lie in one block each |
| `MainMemory.WriteSizesSum` | src/Base/Messages/SMS/SMS_MainMemory.cc:96-136 | their sizes sum to the size of the request |
| `MainMemory.ReadTiles` | src/Base/Messages/SMS/SMS_MainMemory.cc:60-88 | the pieces of a read, read-ahead included, are whole blocks, each where the one before ends, from the block that holds the offset |
| `MainMemory.PiecesAreNumbered` | src/Base/Messages/SMS/SMS_MainMemory.cc:60-136 | the k-th piece of a read or write has the trace of its request with k as one more request on the last module |
| `MainMemory.PiecesFitParent` | src/Base/Messages/SMS/SMS_MainMemory.cc:60-152 | every sub-request of a read, a write or a memory message is recognised as belonging to its request |
| `MainMemory.ReadReadyExactly` | src/Base/Messages/SMS/SMS_MainMemory.cc:164-190 | a read is ready exactly when every block that meets the range has arrived an odd number of times, whatever the read-ahead blocks do |
| `MainMemory.AnswersMakeReadReadyExactly` | src/Base/Messages/SMS/SMS_MainMemory.cc:164-190 | answers to any pieces of a read, marked by their own traces, make it ready exactly when every block that meets the range is covered by an odd number of the pieces answered |
| `MainMemory.ArrivedOddly` | src/Base/Messages/SMS/icancloud_Request.cc:159-174 | a second arrival of a sub-request clears the first |
| `MainMemory.CountIsRightExactly` | src/Base/Messages/SMS/icancloud_Request.cc:153-174 | the arrival count says that all have arrived when as many answers came as there are sub-requests; that is right exactly if none arrived twice |
| `MainMemory.NothingOverflows` | src/Base/Messages/SMS/SMS_MainMemory.cc:43-136 | if the end of the last block, read-ahead included, fits in an int, so does every number computed |
| `MainMemory.SmsMainMemory.AddRequest` | src/Base/Messages/SMS/SplittingMessageSystem.cc:68-74 | a new entry with nothing arrived |
| `MainMemory.SmsMainMemory.SplitRequest` | src/Base/Messages/SMS/SMS_MainMemory.cc:14-161 | entry and sub-requests of a message: whole blocks for a read, clipped blocks for any other file request, the message itself for a memory request; anything else changes nothing |
| `MainMemory.SmsMainMemory.SplitFileRequest` | src/Base/Messages/SMS/SMS_MainMemory.cc:40-137 | the two file branches, with the number of blocks |
| `MainMemory.SmsMainMemory.SplitRead` | src/Base/Messages/SMS/SMS_MainMemory.cc:60-93 | piece i is the whole block first + i |
| `MainMemory.SmsMainMemory.SplitWrite` | src/Base/Messages/SMS/SMS_MainMemory.cc:96-136 | piece i is the part of the range in block first + i |
| `MainMemory.SmsMainMemory.PopSubRequest` | src/Base/Messages/SMS/SMS_MainMemory.cc:202-214 | pieces leave in the order they were made |
| `MainMemory.SmsMainMemory.SearchRequest` | src/Base/Messages/SMS/SplittingMessageSystem.cc:7-34 | the first entry of the request, or none |
| `MainMemory.SmsMainMemory.ArrivesSubRequest` | src/Base/Messages/SMS/SplittingMessageSystem.cc:156-187 | marks the sub-request that the trace of the answer names, in the first entry of its parent; fails exactly when there is none |
| `MainMemory.SmsMainMemory.ArrivesAllSubRequest` | src/Base/Messages/SMS/SplittingMessageSystem.cc:52-65 | the count of the first entry of the request against the number of its sub-requests |
| `MainMemory.SmsMainMemory.ArrivesRequiredBlocks` | src/Base/Messages/SMS/SMS_MainMemory.cc:164-190 | true exactly when the request has an entry whose sub-requests but the last extraBlocks have arrived |
| `PortsTable.RegisterAllSorts` | src/Management/NetworkManager/NetworkManager.cc:357-384 | registered in any order, pairwise comparable nodes form a sorted permutation |
| `PortsTable.RegisterInsertsExactly` | src/Management/NetworkManager/NetworkManager.cc:357-384 | in a table of any order a new node goes to the one position where it is at least every node before it and not at least the one behind it |
| `PortsTable.LookupRightExactly` | src/Management/NetworkManager/NetworkManager.cc:516-575 | in a table of any order the answer is right for registered and unregistered addresses exactly when the table is not one other node |
| `PortsTable.LookupIsLinearScan` | src/Management/NetworkManager/NetworkManager.cc:516-575 | for distinct addresses and a size other than 1 the lookup is a linear scan |
| `PortsTable.SingleNodeAnswersAll` | src/Management/NetworkManager/NetworkManager.cc:531-533 | a table of one node answers with it for an address it does not have |
| `PortsTable.HalvingFinds` | src/Management/NetworkManager/NetworkManager.cc:535-558 | in a sorted table of distinct addresses the halving loop keeps the target in its range and finds it within as many rounds as the range is long |
| `PortsTable.RegisteredAreFoundByHalving` | src/Management/NetworkManager/NetworkManager.cc:357-575 | after any registrations of comparable, distinct nodes the linear search is never needed |
| `PortsTable.HalvingFindsExactly` | src/Management/NetworkManager/NetworkManager.cc:535-558 | in a table of any order, the halving loop finds a node exactly when each node on the path to it (fixed by its position and the size) compares to the right side; otherwise it finds nothing |
| `PortsTable.PairNeedsComparability` | src/Management/NetworkManager/NetworkManager.cc:357-558 | two nodes are found by halving alone in every order of registration exactly when they are comparable |
| `PortsTable.IncomparableIsMissed` | src/Management/NetworkManager/NetworkManager.cc:491-575 | an instance: two incomparable nodes of which the halving loop misses one |
| `PortsTable.Halving` | src/Management/NetworkManager/NetworkManager.cc:535-558 | what the halving loop finds has the address asked for |
| `PortsTable.LastMatch` | src/Management/NetworkManager/NetworkManager.cc:560-567 | what the linear search finds is the last entry with the address; if it finds none no entry has it |
| `NetworkManager.NetworkManager.RegisterNode` | src/Management/NetworkManager/NetworkManager.cc:357-384 | the new table, against `Register` |
| `NetworkManager.NetworkManager.GetNodeFromPortsTable` | src/Management/NetworkManager/NetworkManager.cc:516-575 | the answer, against `Lookup` |
| `NetworkManager.NetworkManager.HalvingSearch` | src/Management/NetworkManager/NetworkManager.cc:535-558 | the loop stays in bounds, ends, and never reaches its branch for an empty range |
| `IpText.ScanOfPrint` | src/Management/NetworkManager/VirtualIPs.cc:108-138 | re-reading a printed address is the identity |
| `IpText.FilledWhenRead` | src/Management/NetworkManager/VirtualIPs.cc:120-138 | where all four numbers are read, what the variables held before does not matter |
| `IpText.ReadsBases` | src/Management/NetworkManager/NetworkManager.cc:491-514 | hexadecimal behind 0x, octal behind 0, and signs, on one text each |
| `IpText.PrintInjective` | src/Management/NetworkManager/VirtualIPs.cc:108-118 | different addresses print differently |
| `VirtualIps.IncAddsOne` | src/Management/NetworkManager/VirtualIPs.cc:46-82 | the carry counter adds exactly one to the base-257 value until all octets are 256, and fails exactly there |
| `VirtualIps.NumberInjective` | src/Management/NetworkManager/VirtualIPs.cc:46-82 | different addresses have different values |
| `VirtualIps.VirtualIPs.SetVirtualIP` | src/Management/NetworkManager/VirtualIPs.cc:31-40 | the four octets read from the text |
| `VirtualIps.VirtualIPs.IncVirtualIP` | src/Management/NetworkManager/VirtualIPs.cc:46-82 | fields and text after an increment, and the error with the fields unchanged |
| `VirtualIps.PrintFits` | src/Management/NetworkManager/VirtualIPs.cc:108-118 | the printed address fits the buffer of 16 characters |
| `NetworkManager.NetworkManager.CreateNewUser` | src/Management/NetworkManager/NetworkManager.cc:63-76 | the counter of a new user starts at the basis |
| `NetworkManager.NetworkManager.NewVIPFor` | src/Management/NetworkManager/NetworkManager.cc:463-489 | the oldest hole, or the address after the last one issued |
| `NetworkManager.NetworkManager.AllocateVirtualIP` | src/Management/NetworkManager/NetworkManager.cc:101-124 | the first entry of the user gets a cell with a new address; without an entry nothing changes |
| `VirtualIps.IssueIsBasisPlus` | src/Management/NetworkManager/NetworkManager.cc:463-489 | the k-th allocation without holes is the basis plus k |
| `VirtualIps.IssuesAreDistinct` | src/Management/NetworkManager/NetworkManager.cc:463-489 | no address is issued twice |
| `VirtualIps.HolesFirst` | src/Management/NetworkManager/NetworkManager.cc:463-471 | freed addresses are handed out first, oldest first and each once, and the counter stands still meanwhile |
| `VirtualIps.AfterTheHoles` | src/Management/NetworkManager/NetworkManager.cc:463-489 | when they are used up the user is as one without holes |
| `VirtualIps.ExhaustedIssuesNothing` | src/Management/NetworkManager/NetworkManager.cc:463-489 | the first allocation past the last address issues the empty text; the one after it counts on from what the uninitialised variables held |
| `VirtualIps.IssuesIPv4Exactly` | src/Management/NetworkManager/VirtualIPs.cc:46-82 | from an IPv4 address the counter issues n IPv4 addresses exactly when its last octet plus n is at most 255 |
| `GateManager.NewKeeps` | src/Base/cGateManager.cc:54-79 | a new gate never fails, takes a position not in use, the oldest hole first, and grows the vector only when all positions are live |
| `GateManager.FreeKeeps` | src/Base/cGateManager.cc:94-110 | freeing makes one position a hole and leaves the others |
| `GateManager.LinkExactly` | src/Base/cGateManager.cc:24-52 | linking throws exactly beyond the end and at a linked gate; else it links that gate only |
| `GateManager.FreeExactly` | src/Base/cGateManager.cc:94-110 | freeing throws exactly at a gate that is not linked; else it queues that one last |
| `GateManager.AllocatorRuns` | src/Base/cGateManager.cc:24-110 | under any operations: holes lists each unlinked position once, linkGate never throws, holes are reused in the order they were freed, the vector is as long as the most gates ever live at once |
| `GateManager.GateVector.LinkGate` | src/Base/cGateManager.cc:24-52 | the new flags, and exactly when it throws |
| `GateManager.GateVector.NewGate` | src/Base/cGateManager.cc:54-79 | the position and new books, against `Position` and `New` |
| `GateManager.GateVector.FreeGate` | src/Base/cGateManager.cc:94-110 | the new books, against `Free`; an unlinked gate is an error |
| `GateManager.GateVector.SearchGate` | src/Base/cGateManager.cc:124-138 | the first position with that gate identifier, or none |
| `ContainerGates.LinkKeeps` | src/Virtualization/DockerEngine/DockerDaemon.cc:329-347 | in lockstep all four managers succeed, with the same unused position, and stay in lockstep |
| `ContainerGates.UnlinkKeeps` | src/Virtualization/DockerEngine/DockerDaemon.cc:349-368 | one position is freed in all four and lockstep stays |
| `ContainerGates.StaysInLockstep` | src/Virtualization/DockerEngine/DockerDaemon.cc:329-368 | after any sequence of links and unlinks the four books are equal |
| `ContainerGates.RequestsStayWithTheirContainer` | src/Virtualization/DockerEngine/DockerDaemon.cc:128-168 | what enters at fromApps[i] leaves at the toOSApps[i] of the same container, and the same from the other side; live containers have distinct positions |
| `CommIds.InsertAppends` | src/Virtualization/DockerEngine/DockerDaemon.cc:428-473 | an identifier is queued for its message and machine and for no other |
| `CommIds.TakePops` | src/Virtualization/DockerEngine/DockerDaemon.cc:475-515 | the oldest identifier of the message comes back and is removed; without one nothing changes |
| `MigrationRuns.RunsLoseNothing` | src/Virtualization/DockerEngine/DockerDaemon.cc:81-327 | in every run: forwarded then held-back requests are the arrivals in order, nothing is held outside a migration, each counter is requests forwarded less responses handled, every request leaves at its position on the other side |
| `MigrationRuns.StopsAnsweredExactly` | src/Virtualization/DockerEngine/DockerDaemon.cc:93-103 | in every run, through any number of migrations, the stop orders answered are, in order, those that arrived while the daemon was unblocked and prepared |
| `MigrationRuns.StopIsAnsweredExactly` | src/Virtualization/DockerEngine/DockerDaemon.cc:93-103 | a stop order is ever answered exactly when it finds the daemon unblocked and prepared |
| `MigrationEvents.BlockedExactly` | src/Virtualization/DockerEngine/DockerDaemon.cc:27-34 | the daemon is blocked exactly when a stop order or a block has come since it was last activated, from the events alone |
| `MigrationEvents.StoppedSendsNothing` | src/Virtualization/DockerEngine/DockerDaemon.cc:93-127 | from a stop order or a block to the next activation nothing is forwarded |
| `MigrationEvents.RequestsCarryIds` | src/Virtualization/DockerEngine/DockerDaemon.cc:115-117 | every request forwarded or held back carries the user and machine that were set last as it arrived |
| `MigrationEvents.DirectRequest` | src/Virtualization/DockerEngine/DockerDaemon.cc:128-168 | what an unblocked daemon sends for a request, field by field, from the events before it |
| `MigrationEvents.ResponsesGoOn` | src/Virtualization/DockerEngine/DockerDaemon.cc:173-195 | every response goes on at once and in order, as it came but for its identifier |
| `MigrationRuns.BlockedMeansSilent` | src/Virtualization/DockerEngine/DockerDaemon.cc:81-171 | while blocked nothing is forwarded and no stop order is answered |
| `MigrationRuns.PreparedExactly` | src/Virtualization/DockerEngine/DockerDaemon.cc:36-42 | the daemon counts as prepared exactly when for each kind unanswered application requests equal the responses applications gave |
| `MigrationRuns.PreparedWithWorkOutstanding` | src/Virtualization/DockerEngine/DockerDaemon.cc:173-195 | from any prepared daemon, three messages that leave it prepared with one more application request outstanding |
| `MigrationTwins.MigrationIsTransparentExactly` | src/Virtualization/DockerEngine/DockerDaemon.cc:81-298 | after any events with any number of migrations a daemon that ends unblocked has the state of one that sees the same requests, responses and identities and no migration, has sent the same requests in the same order by the same gates, and the same messages exactly when rewriting would change none of those held back; it differs in the stop orders answered |
| `MigrationTwins.OneMigrationExactly` | src/Virtualization/DockerEngine/DockerDaemon.cc:27-34 | the same for one block and activation around any requests, responses and changes of identity |
| `CommIdRuns.CommIdComesBackExactly` | src/Virtualization/DockerEngine/DockerDaemon.cc:81-195 | every application request has left or waits unchanged, after any other traffic and migrations; its response carries the identifier the application wrote exactly if the request was held back, is a network message with an identifier, or had its position as identifier anyway |
| `HeldRequests.RequestsFindTheirContainer` | src/Virtualization/DockerEngine/DockerDaemon.cc:261-298 | in every run with containers connected and disconnected, as long as none is disconnected while a request of its own is held back, every request leaves by the gate of its container |
| `HeldRequests.ReleasedAreRightExactly` | src/Virtualization/DockerEngine/DockerDaemon.cc:261-298 | what is held back leaves by the right gates exactly when each request has the position its container has now |
| `HeldRequests.CarelessMisdelivers` | src/Virtualization/DockerEngine/DockerDaemon.cc:329-368 | a container with requests held back is disconnected and another one connected: without holes, these leave by the gate of the other one |
| `MigrationRuns.FlushKeeps` | src/Virtualization/DockerEngine/DockerDaemon.cc:284-298 | flushing moves the held-back messages in order behind what was sent |
| `DockerDaemon.DockerDaemon.constructor` | src/Virtualization/DockerEngine/DockerDaemon.cc:44-70 | initial fields and four empty managers |
| `DockerDaemon.DockerDaemon.HandleMessage` | src/Base/icancloud_Base.cc:132-168 | requests and responses are told apart; each is one step of the runs above |
| `DockerDaemon.DockerDaemon.ProcessRequestMessage` | src/Virtualization/DockerEngine/DockerDaemon.cc:81-171 | new state after a stop order, an activation or an ordinary request, against `Request` |
| `DockerDaemon.DockerDaemon.ProcessOrdinaryRequest` | src/Virtualization/DockerEngine/DockerDaemon.cc:113-171 | the ordinary branch: stamped, remembered, then held back or forwarded |
| `DockerDaemon.DockerDaemon.ForwardFromApps` | src/Virtualization/DockerEngine/DockerDaemon.cc:134-161 | counted, rewritten and sent by the gate of its container |
| `DockerDaemon.DockerDaemon.ProcessResponseMessage` | src/Virtualization/DockerEngine/DockerDaemon.cc:173-195 | counter, restored identifier and answer, against `Response` |
| `DockerDaemon.DockerDaemon.SendPendingMessage` | src/Virtualization/DockerEngine/DockerDaemon.cc:261-282 | a held-back message leaves as it is |
| `DockerDaemon.DockerDaemon.FlushPendingMessages` | src/Virtualization/DockerEngine/DockerDaemon.cc:284-298 | the loop, against `Flush` |
| `DockerDaemon.DockerDaemon.FinishMigration` | src/Virtualization/DockerEngine/DockerDaemon.cc:240-243 | unblocked and flushed |
| `DockerDaemon.DockerDaemon.ActivateMessages` | src/Virtualization/DockerEngine/DockerDaemon.cc:31-34 | unblocked and flushed |
| `DockerDaemon.DockerDaemon.BlockMessages` | src/Virtualization/DockerEngine/DockerDaemon.cc:27-29 | blocked, nothing else |
| `DockerDaemon.DockerDaemon.MigrationPrepared` | src/Virtualization/DockerEngine/DockerDaemon.cc:36-42 | true exactly when all four counters are zero |
| `DockerDaemon.DockerDaemon.UpdateCounters` | src/Virtualization/DockerEngine/DockerDaemon.cc:304-327 | only the counter of the kind of the message moves |
| `DockerDaemon.DockerDaemon.InsertCommId` | src/Virtualization/DockerEngine/DockerDaemon.cc:428-473 | the table loop, against `Insert` |
| `DockerDaemon.DockerDaemon.UpdateCommId` | src/Virtualization/DockerEngine/DockerDaemon.cc:475-515 | the nested search, against `Take` |
| `DockerDaemon.DockerDaemon.LinkNewContainer` | src/Virtualization/DockerEngine/DockerDaemon.cc:329-347 | one new position in all four vectors; the message state is untouched |
| `DockerDaemon.DockerDaemon.UnlinkContainer` | src/Virtualization/DockerEngine/DockerDaemon.cc:349-368 | finds the position of the container by gate identifier and frees it in all four vectors |

## Left out

- The simulation kernel, sockets, real gates and modules: delivery is a step that picks a message in flight, and gates are positions.
- Times, energy, logging, result files, directories and the show functions.
- Generated message code, getters and setters; the parent pointer that parsimPack copies as raw bytes; the fixed-size buffers for names.
- mpi_irecv and mpi_gather: an asynchronous receive leaves a blocking call behind, and a gather message that arrives early is an error. Broadcast and scatter appear only as calls to be matched.
- Matching.MpiBase.InsertMPICall: the fields receiver, fileName and offset of the call, which no matching rule reads, are not kept.
- Matching.MpiBase.ProcessMPICallRequest: what the handler of a gather does is not modelled; the handlers of a barrier are in `Barrier` and `MpiBarrierUp`.
- Matching.MpiBase.MpiBarrierUp: what the process does when it continues is not part of `Matching`.
- Hpc.ApplicationHPC.constructor: file names and offsets are not modelled.
- Hpc.ApplicationHPC.ReadInputData: the file name, the offset read from and the roll-over to a new file are not modelled; no state depends on them.
- Hpc.ApplicationHPC.WrittingData: the file name, the offset written to and the roll-over to a new file are not modelled; no state depends on them.
- What the operating system does with memory and CPU requests of ApplicationHPC.
- HpcTheorems.MaximalRunsComplete: assumes successful answers of the operating system; a failed one halts the process, as `Hpc.ApplicationHPC.ProcessResponse` says.
- HpcTermination.RunsAreBounded: assumes the same; the condition on workersSet and numIterations is needed, as `HpcTermination.EveryRunCompletesExactly` says.
- HpcTheorems.IterationsInStep: speaks of the moments between two events of a worker, because within one the model lets other ranks move.
- BarrierRuns.BarrierSafety: assumes that every rank can reach rank 0, which `Connections` gives within a group only; a barrier over several groups is not connected.
- Connections.ParseMachinesFile: host names, ports and a missing configuration object are not modelled.
- Messages.Message.Dup: only the trace of the copy is modelled.
- MainMemory.SmsMainMemory.SplitRequest: numbers are unbounded (`MainMemory.NothingOverflows` says when the 32-bit ones of the source agree).
- MainMemory.SmsMainMemory.ArrivesSubRequest: replies are flags; which message object is stored, and its deletion, are not modelled.
- IpText.ScanOfPrint: reading models signs, octal and hexadecimal, but neither white space nor overflow.
- NetworkManager.NetworkManager.RegisterNode: the variables that sscanf() does not fill are a parameter, taken to hold the same for one text at every comparison.
- NetworkManager.NetworkManager.GetNodeFromPortsTable: the same.
- VirtualIps.VirtualIPs.SetVirtualIP: the copy into a buffer of 16 characters is not modelled; printed addresses fit it, as `VirtualIps.PrintFits` says.
- Reuse of freed virtual addresses for a basis other than 0.0.0.0, PortTable::freePort, and deleteVirtualIP_by_VIP.
- DockerDaemon::myNewGate and getmyGate, which let callers break the lockstep; popMessage and getOutGate, which nothing of this calls.
- DockerDaemon.DockerDaemon.ProcessRequestMessage: messages are values, so aliasing between the daemon and others that hold the same message is not captured, and the trace a message carries is the subject of `Relay` alone. A stop order that is not a network message, a null dereference in the source, is excluded.
- DockerDaemon.DockerDaemon.SendPendingMessage: the message leaves by its position; which container has it then is the subject of `HeldRequests`, and a position that is not connected is not followed further.
- DockerDaemon.DockerDaemon.UnlinkContainer: gate identifiers given by the kernel are taken to be unique.
- DockerDaemon.DockerDaemon.HandleMessage: the record in the trace and the queue of the base class are in `Relay.Base` only.
- The request queue of the daemon, which is empty between two events because no latency timer holds it; `Relay.Base` models it on its own.
- JobQueue, queuesManager, MachinesMap, userStorage and AbstractDCManager.

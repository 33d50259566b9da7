# Verified model of the opsian-ocaml profiling agent

This project models the parts of the agent whose correctness rests on an argument that no single function
body shows, and proves those arguments for all inputs, all runs or all interleavings:

- the open-addressed **concurrent map** (`ProbingTable`, `Stores`, `Compaction`, `ConcurrentMap`): the cell
  array is a finite map under assign, get and erase with backward compaction; the tables that an operation, or
  a run of operations, passes through are functions of the table before it (`WriterTables`, `WriterRuns`,
  `Homeward`), and a **get that runs meanwhile** (`ConcurrentGet`) sees them between any two stores; the hash is a bijection and the
  index mask is a remainder (`KeyTraits`);
- the bounded **multi-producer, single-consumer ring** (`InternalQueue`) as a machine of single loads and
  stores, any number of producers, and its three uses with reused slots (`CircularQueue`);
- the **connection** (`Connection`): controller, network flags and processor loop, where every send runs
  further handlers, to any depth;
- the **symbol dictionaries and the message stream** (`Symbols`, `LogWriter`), the **metric dictionary**
  (`Metrics`) and the **profile tree** of the Prometheus exporter (`ProfileTrie`);
- the **stream transformers**: batching of runtime events (`EventBatching`), length-delimited framing
  (`Framing`, with varints as in the section "Base 128 Varints" of the Protocol Buffers encoding document)
  and string substitution (`Substitution`).

Objects whose methods update fields are classes with the same fields and loops, each proved against a
specification on values; concurrent code is a step machine or a trail of the states between stores, with the
choice of the scheduler, of the network and of full queues left open. Where something that the design suggests
is false of the code, the model keeps the code's behaviour, there is a failing run or input, and the exact
condition is proved:

- a get can miss a bound key while another key is erased if and only if the erase moves its key, which can be
  read off the table before the erase; a key that is not moved is found with its value
  (`ConcurrentGet.FoundIffNotMoved`, failing run in `ConcurrentGet.PresentKeyCanBeMissed`);
- over any number of writer operations a get can return a value if and only if some cell had the key, then the
  value, then the key again (`ConcurrentGet.ReturnsIffTakenBack`). Operations take a key only towards its home,
  so a key that is not assigned again after an erase shows only its own values
  (`ConcurrentGet.OwnValueUnlessReassigned`); otherwise a get can return another key's value
  (`ConcurrentGet.SeveralOperationsCanMix`, four operations). Under assigns alone a get is linearizable
  (`ConcurrentGet.GetDuringAssigns`);
- a compare-and-swap that is a whole lap late overfills the ring (`InternalQueue.LapLateAcquisitionOverfills`);
  an acquisition is sound if and only if the ring has room at that moment
  (`InternalQueue.AcquisitionSoundIffRoom`), and every run whose acquisitions find room is safe
  (`InternalQueue.RunIsSafe`);
- the printed counts of a scrape add up to the number of samples whatever was sampled if and only if every
  program counter has exactly one function (`ProfileTrie.CountsAddUpIffOneFunctionEach`): an inlined one is
  counted once per function (`ProfileTrie.InlinedSampleCountsTwice`), an unknown one never
  (`ProfileTrie.UnknownSampleIsNotCounted`);
- the announcement of the duration metric takes no lock: it leaves a dictionary if and only if the map was empty
  at its insertion, metrics were on at its push, and they were not switched off between the insertion and the end
  (`Metrics.Announcement`). A name gets id 1 too if metrics are switched on before a read
  (`Metrics.EnableBetweenSteps`), or off and on while the push is refused (`Metrics.DisableInsideAnnouncement`);
- what arrives of a session announces every id before it is used if and only if no announcement was lost that a
  message needs which was sent (`Symbols.WireAnnouncesBeforeUse`); a write that fails without a disconnect can
  lose one (`Symbols.LostAnnouncementUnnamesSample`);
- a child that is forked inside a send can keep the sending flag, and then writes nothing on its first connection
  (`Connection.ForkInsideSend`);
- a batch of events mixes two milliseconds if and only if an entry of millisecond 0 comes right before one of
  another (`EventBatching.BatchesAreMilliseconds`);
- framing delivers the messages if and only if every frame has 5 to 1024 bytes
  (`Framing.FramingIsExactIffFramesFit`); the guard for shorter frames in `lib/protocol_handler.cpp:32` tests an
  unsigned number for being negative and never applies;
- substitution with an empty search string does not end (`Substitution.EmptySearchNeverStops`);
- the first scrape of the Prometheus exporter prints nothing (`ProfileTrie.Profile.Scrape`).

`dafny verify dfyconfig.toml` checks the whole project.

## Model

| member | source | states |
|---|---|---|
| ConcurrentMaps.ConcurrentMap.constructor | lib/concurrent_map.h:144-150 | a new map is valid and empty |
| ConcurrentMaps.ConcurrentMap.Clear | lib/concurrent_map.h:365-374 | clearing restores the empty valid map |
| ConcurrentMaps.ConcurrentMap.IsClear | lib/concurrent_map.h:333-350 | true exactly when the map has no binding |
| ConcurrentMaps.ConcurrentMap.Get | lib/concurrent_map.h:210-241 | get is the lookup of the finite map, and null for an absent or null key, also when the probe ends at the cycle guard |
| ConcurrentMaps.ConcurrentMap.Assign | lib/concurrent_map.h:156-208 | succeeds iff key and value are non-null and the size is below the load limit, also when the key is already bound; then binds the key and changes no other; the tables between its stores are `AssignTables` of the table before |
| ConcurrentMaps.ConcurrentMap.Erase | lib/concurrent_map.h:244-281 | true iff the key is bound; afterwards the map is the old one without that key, with every other key still found across wrap-around; the tables between its stores are `EraseTables` of the table before |
| ConcurrentMaps.ConcurrentMap.CompactChain | lib/concurrent_map.h:283-319 | closes the hole without changing the map, restores the probe invariant, always returns true (its cycle guard is not reached); its stores are `CompactStores` of the table before |
| ConcurrentMaps.ConcurrentMap.NullOutCell | lib/concurrent_map.h:321-325 | the value is nulled before the key |
| ConcurrentMaps.ConcurrentMap.SizeCountsBindings | lib/concurrent_map.h:138-139 | the size field is the number of bindings and at most the load limit |
| ProbingTable.MissedMeansAbsent | lib/concurrent_map.h:220-240 | a probe that reaches a null cell or the cycle guard has proved the key absent |
| ProbingTable.GuardNotReached | lib/concurrent_map.h:182-185 | with two cells to spare an inserting probe never reaches the cycle guard |
| ProbingTable.Inserted | lib/concurrent_map.h:194-205 | a key put where its probe stopped keeps keys unique and the probe invariant |
| ProbingTable.SizeIsBindings | lib/concurrent_map.h:165-191 | the number of occupied cells is the number of bindings |
| Compaction.MoveTestIsOnWalk | lib/concurrent_map.h:306-308 | the move test is exactly that the hole lies on the cyclic walk from the key's home to its cell |
| Compaction.OpenHole | lib/concurrent_map.h:267-272 | nulling a key leaves a table that is good except for probes through the hole |
| Compaction.KeepKey | lib/concurrent_map.h:306-318 | a key that fails the move test can stay: its walk does not meet the hole |
| Compaction.MoveKey | lib/concurrent_map.h:310-316 | a key that passes the move test can be moved, and its old cell is the new hole |
| Compaction.CloseHole | lib/concurrent_map.h:298-303 | at the end of the chain no key is cut off from its home |
| Compaction.MoveKeepsBindings | lib/concurrent_map.h:310-316 | a move leaves the finite map as it was |
| Compaction.NullOutRemoves | lib/concurrent_map.h:321-325 | nulling a cell removes its binding and no other |
| WriterTables.EraseTablesAreTrail | lib/concurrent_map.h:244-319 | the tables of an erase end in a searchable table that binds what was bound, without the erased key; in between no cell takes a key back, every value beside a key is its own, and every key in a cell could be found there at some moment |
| WriterTables.EraseKeepsUnmoved | lib/concurrent_map.h:293-318 | a bound key that an erase neither removes nor moves keeps cell, value and an unbroken walk in every table |
| WriterTables.EraseCutsMoved | lib/concurrent_map.h:306-317 | a key that an erase moves has a null cell on its walk in some table |
| WriterTables.AssignTablesAreTrail | lib/concurrent_map.h:156-208 | the tables of an assign are searchable, no cell changes its key once it has one, and the last binds the key iff the assign can succeed |
| WriterRuns.RunValues | lib/concurrent_map.h:156-281 | whatever value stands beside a key in any table of a run of operations, the key had it between two of them |
| Homeward.EraseHomeward | lib/concurrent_map.h:306-316 | an erase of another key takes a bound key only towards its home: in every table it is between its first and its last cell |
| Homeward.NeverTakenBackUnlessReassigned | lib/concurrent_map.h:156-319 | over any number of operations, a key that is not assigned again after an erase never comes back to a cell it has left |
| ConcurrentGet.GetDuringErase | lib/concurrent_map.h:210-241 | a get overlapping one erase returns null or the value its key had before the erase, at every interleaving of loads and stores (when null is possible: next row) |
| ConcurrentGet.FoundIffNotMoved | lib/concurrent_map.h:210-319 | a get of a bound key during the erase of another key can return null iff the erase moves that key, a function of the table before; if it does not, every get that ends returns the binding |
| ConcurrentGet.GetDuringAssign | lib/concurrent_map.h:210-241 | a get overlapping one assign returns what the key was bound to at the moment of one of its loads: the old value, or the new one |
| ConcurrentGet.GetDuringAssigns | lib/concurrent_map.h:210-241 | the same for any number of assigns: the result is the binding at the moment of one of the get's loads |
| ConcurrentGet.ReturnsIffTakenBack | lib/concurrent_map.h:210-241 | over any number of operations a get can return a value iff some cell had the key, then that value, then the key again |
| ConcurrentGet.OwnValueUnlessTakenBack | lib/concurrent_map.h:227-237 | if no cell loses the key and takes it back, a get over any number of operations returns null or a value the key had between two of them |
| ConcurrentGet.OwnValueUnlessReassigned | lib/concurrent_map.h:227-237 | the same if no assign of the key comes after an erase of it among the operations |
| ConcurrentGet.PresentKeyCanBeMissed | lib/concurrent_map.h:306-317 | counterexample: while the erase of key 1 moves key 2, key 2 is in every table and a get of it can return null |
| ConcurrentGet.SeveralOperationsCanMix | lib/concurrent_map.h:227-237 | counterexample: during erase 1, assign 2, erase 2, assign 1, a get of key 1 can return the value of key 2 |
| ConcurrentGet.NullHasAReason | lib/concurrent_map.h:210-241 | a get returns null only if its walk has reached the cycle guard, a null key, or a null value in a cell that still has its key; a key that was replaced between the two key loads does not end the walk |
| KeyTraits.Deavalanche32OfAvalanche32 | lib/concurrent_map.h:17-33 | the 32-bit finalizer is undone by its inverse |
| KeyTraits.Avalanche32OfDeavalanche32 | lib/concurrent_map.h:17-33 | and conversely |
| KeyTraits.Deavalanche64OfAvalanche64 | lib/concurrent_map.h:35-51 | the 64-bit finalizer is undone by its inverse |
| KeyTraits.Avalanche64OfDeavalanche64 | lib/concurrent_map.h:35-51 | and conversely |
| KeyTraits.AvalancheOfOne | lib/concurrent_map.h:17-51 | the finalizers give the values of MurmurHash3 for 1, so they are no other bijections |
| KeyTraits.HashIsInjective | lib/concurrent_map.h:60-71 | dehash inverts hash, distinct keys have distinct hashes, and the hash is null iff the key is |
| KeyTraits.MaskIsRemainder | lib/concurrent_map.h:144-149 | for a capacity that passes the power-of-two test, masking is the remainder |
| KeyTraits.PredecessorIsPrevious | lib/concurrent_map.h:175-179 | the masked hash minus one, with wrap-around of the word, is the cell before the home cell |
| InternalQueue.InitInv | lib/internal_queue.h:20-21 | the empty ring satisfies the invariant |
| InternalQueue.StepKeepsInv | lib/internal_queue.h:23-62 | every single load or store of any thread keeps the invariant, if a compare-and-swap that succeeds finds room |
| InternalQueue.StepRefinesFifo | lib/internal_queue.h:23-62 | the ring is a FIFO of bounded size: acquisition appends, delivery takes the oldest, nothing else changes it |
| InternalQueue.RunIsSafe | lib/internal_queue.h:11-77 | after any run whose acquisitions find room: items delivered once, in acquisition order, as pushed; one owner per slot; slots not in use are uncommitted and clean |
| InternalQueue.FreshPushRefusedIffFull | lib/internal_queue.h:26-30 | a push whose load of input is current is refused iff the ring is full |
| InternalQueue.PushGetsSlot | lib/internal_queue.h:23-35 | a push that runs on its own gets the next slot with its item if there is room, and is refused and counted otherwise |
| InternalQueue.LostRaceRetries | lib/internal_queue.h:25-32 | a compare-and-swap fails only if another push has acquired since the load, and the push then begins again with the same item |
| InternalQueue.PopRefusedIffEmpty | lib/internal_queue.h:37-43 | a pop finds the ring empty iff everything acquired has been given back, at any place of the indices in the ring |
| InternalQueue.ConsumerIsNotStuck | lib/internal_queue.h:37-62 | the consumer can always take its next step, unless it awaits the commit of an item whose producer can take its own |
| InternalQueue.PopDelivers | lib/internal_queue.h:37-62 | four steps of the consumer alone deliver the oldest item if it is committed, and three more give its slot back |
| InternalQueue.PopsDrainTheRing | lib/internal_queue.h:37-62 | if everything in the ring is committed, pops alone deliver all of it, in order, and then find the ring empty |
| InternalQueue.AcquisitionSoundIffRoom | lib/internal_queue.h:26-32 | a successful compare-and-swap keeps the invariant iff output is not the cell after input at that moment |
| InternalQueue.RoomIsFreeSlot | lib/internal_queue.h:26-30 | the test of the full-check on the current cells says exactly that a slot besides the gap is free |
| InternalQueue.NoLapMeansRoom | lib/internal_queue.h:26-32 | fewer than a lap of acquisitions between load and compare-and-swap means room |
| InternalQueue.TimelyIsPossible | lib/internal_queue.h:26-32 | so every run in which no compare-and-swap is a lap late is a run whose acquisitions find room |
| InternalQueue.LapLateAcquisitionOverfills | lib/internal_queue.h:26-32 | counterexample: an interleaving that puts two items into a ring of size one |
| InternalQueue.RunIsAccounted | lib/circular_queue.cpp:54-68 | attempts are delivered, in flight or counted failures, after any run of any timing |
| CircularQueues.StackHolder.Fill | lib/circular_queue.cpp:26-34 | the stores of a push of a trace or a thread entry, on the holder and its frame buffer |
| CircularQueues.StackHolder.Write | lib/circular_queue.cpp:152-161 | the frame copy loop writes exactly the frames that count |
| CircularQueues.StackHolder.ZeroFrames | lib/circular_queue.cpp:215-220 | the zeroing loop of pop cleans the slot |
| CircularQueues.StackCodecLawful | lib/circular_queue.cpp:26-50 | a stack slot delivers what was pushed and is all zero again, also for negative frame counts and thread entries |
| CircularQueues.StackQueueDelivers | lib/circular_queue.cpp:203-230 | over any run every entry delivered is the one pushed, and every unowned slot's frame buffer is all zero |
| CircularQueues.MainCodecLawful | lib/circular_queue.cpp:77-149 | a main queue slot never shows a field of an earlier tenant of another kind |
| CircularQueues.MainQueueDelivers | lib/circular_queue.cpp:163-193 | over any run the listener gets the items in order, unchanged |
| CircularQueues.AllocationQueueAccounts | lib/circular_queue.cpp:54-68 | every allocation is delivered once as pushed, in flight, or counted as a failure |
| Connection.Network.SendWithSize | lib/network.cpp:228-292 | writes exactly one start and stop iff connected and not sending, whatever runs nested inside; reports success iff it wrote and the first end of an operation among what was handled meanwhile was a success; the sending flag is clear when the outermost send has returned |
| Connection.Network.Write | lib/network.cpp:238-284 | one start and one stop on the wire around everything nested in the write, which goes on until the operation ends or the script does; an error that means a disconnect leaves the controller disconnected |
| Connection.Network.AwaitCompletion | lib/network.cpp:109-126 | waits: handlers run, in the order of the script, until the operation in flight has ended or the script is used up, its result is the first end that was handled, and nothing runs after it; the invariant of the controller survives the handlers |
| Connection.Network.Transmit | lib/network.cpp:238-265 | the write with its wait, without the disconnect: the outcome is that of the first operation that ends |
| Connection.Network.EndSession | lib/network.cpp:266-276 | after an error that means a disconnect, the socket is closed and drained and the controller is disconnected |
| Connection.Network.Close | lib/network.cpp:319-338 | closing with a socket runs queued handlers until nothing is ready or the script is used up, and leaves no socket and no connection; without one it runs nothing |
| Connection.Network.CloseSocket | lib/network.cpp:340-350 | with a socket the connection flag is cleared |
| Connection.CollectorController.RunOne | lib/network.cpp:113-119 | handles the first occurrence of the script and everything nested in it: a timer that fires writes its message if a write is possible and is armed again, the receive timer ends the session, a message has its effect and the next read is started, the first end of an operation is its result; watchdog and write invariant are kept |
| Connection.CollectorController.OnReadBody | lib/protocol_handler.cpp:53-114 | a message read inside a send keeps the invariant; only a sample rate changes the state, and only from SENT_HELLO |
| Connection.CollectorController.OnSampleRate | lib/collector_controller.cpp:107-154 | the same for the message that makes a session |
| Connection.CollectorController.OnFirstSampleRate | lib/collector_controller.cpp:218-228 | the stash is empty afterwards, and the session, if it still stands, is watched |
| Connection.CollectorController.SendStashedNotifications | lib/collector_controller.cpp:462-477 | all of them are written, once and in order, if the connection is still up afterwards (otherwise a prefix), and none inside another send |
| Connection.CollectorController.OnSendTimer | lib/collector_controller.cpp:354-359 | one heartbeat is written iff a write is possible, and the send timer is pending again |
| Connection.CollectorController.OnReceiveTimer | lib/collector_controller.cpp:361-366 | the watchdog ends the session from any state and runs again |
| Connection.CollectorController.OnDisconnect | lib/collector_controller.cpp:230-250 | disconnected, without connection or socket, and nothing written |
| Connection.CollectorController.OnSocketConnect | lib/collector_controller.cpp:184-195 | ends in SENT_HELLO with the receive timer pending, even if the send of the hello disconnects; a read is pending if the hello was sent undisturbed |
| Connection.CollectorController.Backoff | lib/collector_controller.cpp:421-440 | no sleep at the first attempt; then the time grows by half at every attempt, from one second to one minute |
| Connection.CollectorController.Connect | lib/network.cpp:156-226 | a connection exists afterwards iff success is reported, except in Prometheus mode; before a success two operations ended well, the second one last; if nothing else happens the TLS handshake decides |
| Connection.CollectorController.Poll | lib/collector_controller.cpp:263-274 | acts only when disconnected, and then always attempts to connect; its result says whether a hello was sent, a failed attempt makes the next wait longer and a successful one resets it |
| Connection.CollectorController.RecordNotification | lib/log_writer.cpp:262-290 | written in a session if a write is possible; outside a session it joins the stash |
| Connection.HandOn | lib/processor.cpp:35-40 | an item from a queue is written if there is a connection; without one a notification is stashed iff there is no session |
| Connection.PopItems | lib/processor.cpp:35-40 | items are handed on until ten of them or the queues are through; those before a loss of the connection are on the wire, in order, and only later ones are lost or stashed |
| Connection.CollectorController.OnEnd | lib/collector_controller.cpp:175-182 | the only way out of Prometheus mode besides a fork: ends disconnected |
| Connection.CollectorController.OnFork | lib/collector_controller.cpp:479-490 | the child of a fork at any point starts disconnected with an empty stash, no socket and a wire of its own; a sending flag that was set stays set if no handler runs while the socket closes |
| Connection.ForkInsideSend | lib/network.cpp:228-236 | after a fork inside a send with no handler left to run, nothing is written on the child's first connection, whatever happens on it |
| Connection.RunProcessor | lib/processor.cpp:21-51 | over every run of the environment, all that the loop finds is a sound run: only top-level states, watched sessions, no send under way, the transitions of the state machine with exactly a hello at the start of a session and nothing written outside one; writes on the wire alternate, and everything on the script is handled, in order, until the controller is switched off |
| Connection.DutyCycle | lib/processor.cpp:29-48 | one turn is a poll, then ten handlers or as many as there are, then, in a session and only there, queued items until ten or none is left |
| Connection.SessionsEndDisconnected | lib/processor.cpp:21-51 | in a sound run there is a disconnected state between a session and the next hello |
| Connection.ExporterStaysSilent | lib/collector_controller.cpp:175-182 | in a sound run the exporter mode lasts and nothing is written to the collector |
| Connection.WritesDoNotNest | lib/network.cpp:228-292 | alternation means that a write has stopped before the next one starts |
| Symbols.SampledIdAnnouncedOnce | lib/symbol_table.cpp:116-126 | every method id in a sample was announced exactly once, earlier, and no other announcement of any session has that id |
| Symbols.MethodAdded | lib/symbol_table.cpp:116-126 | announcing a new method keeps the stream sound: its file id is 0 or was announced earlier |
| Symbols.FileAdded | lib/symbol_table.cpp:48-57 | the same for a file |
| Symbols.SampleAdded | lib/log_writer.cpp:77-119 | a sample of ids from the dictionary keeps the stream sound |
| Symbols.SessionStarts | lib/symbol_table.cpp:217-221 | clearing the dictionaries starts a sound session; ids are not reused |
| Symbols.MatchesDetermines | lib/symbol_table.cpp:193-215 | a cache hit and an uncached resolution in the same session cannot differ |
| Symbols.NamesComeInThisOrder | lib/symbol_table.cpp:63-114 | a name is the first non-empty one of debug information, symbol table (not asked for foreign code) and linker, and else Unknown; a file is that of the debug information, else the binary, else none |
| Symbols.PrettyNames | lib/symbol_table.cpp:145-164 | a symbol with the prefix of the executable is its pieces between double underscores, joined by dots; any other is left alone |
| Symbols.NamesKeepFiles | lib/symbol_table.cpp:119-125 | what is announced for a location keeps this: every method of the session was announced with the id of the file of a location with its name, announced before under that name, or with 0 iff there is no file |
| Symbols.WireAnnouncesBeforeUse | lib/network.cpp:262-284 | the messages of a session that were sent announce every id before it is used iff no announcement was lost that a sent message needs; in particular if every announcement was sent |
| Symbols.LostAnnouncementUnnamesSample | lib/network.cpp:277-284 | counterexample: an announcement lost without a disconnect leaves a sample of an id that was never announced |
| LogWriters.SymbolTable.RecordFile | lib/symbol_table.cpp:43-59 | a file has an announced id of this session; exactly one announcement is emitted for a new one and nothing for a known one |
| LogWriters.SymbolTable.HandlePcInfo | lib/symbol_table.cpp:63-140 | the location added is the resolution of the fallback chain, with the ids of this session; emitted are exactly the file if it is new and then the function if it is new, with the id of that file, or 0 iff there is none |
| LogWriters.SymbolTable.FindNames | lib/symbol_table.cpp:63-114 | the names that the fallback chain gives and the id of the file, which is 0 iff neither debug information nor linker gives a file |
| LogWriters.SymbolTable.RecordFunction | lib/symbol_table.cpp:116-126 | a function name has one id per session; a known one emits nothing, a new one exactly its announcement, with the file id |
| LogWriters.SymbolTable.HandleSyminfo | lib/symbol_table.cpp:145-164 | the symbol name without its prefix and with dots, or unchanged |
| LogWriters.SymbolTable.LookupLocations | lib/symbol_table.cpp:193-215 | cached or not, the result is the resolution of the pc with this session's ids, and every method of the session keeps its file |
| LogWriters.SymbolTable.ClearSymbols | lib/symbol_table.cpp:217-221 | empty dictionaries, a new session, and the next id unchanged |
| LogWriters.LogWriter.AddFrames | lib/log_writer.cpp:65-75 | one compressed frame per location, none for an error |
| LogWriters.LogWriter.RecordStackTrace | lib/log_writer.cpp:77-119 | emits the missing announcements and then one sample, whose frames resolve the trace outside the signal handler in order; every method of the session keeps its file |
| LogWriters.LogWriter.SentSessionIsAnnounced | lib/log_writer.cpp:121-132 | of the current session, what the network has sent announces every id before it is used iff no announcement that a sent message needs was lost |
| LogWriters.LogWriter.OnSocketConnected | lib/log_writer.cpp:386-388 | a new connection starts with empty dictionaries |
| ProfileTrie.Profile.constructor | lib/prometheus_exporter.cpp:343-348 | an empty profile whose root is not marked |
| ProfileTrie.Profile.RecordStackTrace | lib/prometheus_exporter.cpp:260-299 | adds exactly one sample of the trace's path and clock to the multiset the tree stands for, and nothing for a broken trace |
| ProfileTrie.Profile.Descend | lib/prometheus_exporter.cpp:283-296 | finds or makes the child, marks it, and keeps counts and marks |
| ProfileTrie.Profile.WriteProfileNode | lib/prometheus_exporter.cpp:111-140 | the pruned walk prints the node and every path below it that leads to a sample, each once, with its count |
| ProfileTrie.Profile.WriteFunctions | lib/prometheus_exporter.cpp:125-135 | one line per function of the node, with the growing signature |
| ProfileTrie.Profile.EndPhaseNode | lib/prometheus_exporter.cpp:44-54 | resets the subtree and nothing else |
| ProfileTrie.Profile.Scrape | lib/prometheus_exporter.cpp:162-168 | after the first scrape: prints for both clocks exactly the samples since the last scrape, and starts again from none; the first scrape prints nothing |
| ProfileTrie.SampleIsReported | lib/prometheus_exporter.cpp:127-135 | the block of lines of every sample's path is in the report; if its innermost program counter has a function, there is a line with the number of such samples whose signature is the root and, after a hash each, every function of the path, outermost first |
| ProfileTrie.TextNamesCalls | lib/prometheus_exporter.cpp:111-140 | the signature that the walk hands down is the root and the functions of the path above, outermost first |
| ProfileTrie.NodeLineNamesCalls | lib/prometheus_exporter.cpp:125-135 | the k-th line of a node names the root, the calls above it and its own first k functions |
| ProfileTrie.CountShowsIffNamed | lib/prometheus_exporter.cpp:125-135 | the lines depend on how often a path was sampled iff its innermost program counter has a function |
| ProfileTrie.ScrapeSum | lib/prometheus_exporter.cpp:111-140 | the counts of all printed lines of both clocks add up to the sum, over the samples, of the number of functions at their innermost program counter |
| ProfileTrie.CountsAddUp | lib/prometheus_exporter.cpp:111-140 | the printed counts of both clocks add up to the number of samples, if every sample has exactly one function there |
| ProfileTrie.CountsAddUpIffOneFunctionEach | lib/prometheus_exporter.cpp:125-135 | they do so for whatever was sampled iff every program counter has exactly one function |
| ProfileTrie.InlinedSampleCountsTwice | lib/prometheus_exporter.cpp:125-135 | counterexample: one sample at a program counter with two functions, and counts that add up to 2 |
| ProfileTrie.UnknownSampleIsNotCounted | lib/prometheus_exporter.cpp:125-135 | counterexample: one sample at a program counter without functions, and counts that add up to 0 |
| ProfileTrie.Profile.CoveredHasChild | lib/prometheus_exporter.cpp:24-25 | no marked subtree hides behind an unmarked node |
| Metrics.IdsAreExact | lib/metrics.cpp:206-232 | the ids of a session are exactly 1 to the size of the map, and no two names share one |
| Metrics.DurationMustComeFirst | lib/metrics.cpp:329-339 | inserting and announcing the duration metric at once keeps the dictionary iff the map is empty |
| Metrics.LateEnableSharesAnId | lib/metrics.cpp:256-268 | if an entry has id 1 when the duration metric is announced, two names share it and the map is no longer the dictionary |
| Metrics.EnableBetweenSteps | lib/metrics.cpp:256-275 | counterexample: a load of the flag, an enable, a read of one entry and an announcement end with two names under id 1 |
| Metrics.DisableInsideAnnouncement | lib/metrics.cpp:329-339 | counterexample: a refused attempt, a disable, an enable and a successful attempt end with the duration metric announced and not in the map |
| Metrics.NextEntrySharesTheId | lib/metrics.cpp:206-232 | then the next entry is announced under id 1 too |
| Metrics.Metrics.FindOrCreateMetricId | lib/metrics.cpp:206-232 | the id of the name, or 0 with map and queue unchanged if a new name did not fit into the queue; a new name is announced under the next id with the variability, type and unit of its entry, and a dictionary stays one |
| Metrics.Metrics.AttemptRecordEntries | lib/metrics.cpp:156-184 | every entry is sampled under its own id, in order, or refused; refused constants are kept |
| Metrics.Metrics.RecordEntries | lib/metrics.cpp:141-154 | one message of samples, with the time of the batch, unless the queue refuses it: the samples of the named entries and then of the named constants from before; every sample sent was named earlier, and every constant of the session is named or kept, also before the duration metric is announced |
| Metrics.OnlyConstantsAreKept | lib/metrics.cpp:172-181 | what is kept for a retry are constants that were not named, and nothing else |
| Metrics.Metrics.RecordAll | lib/metrics.cpp:141-154 | the batches of a read are recorded in order, each with the constants left over before it; the sample messages added to the queue are exactly those of the batches whose push was not refused |
| Metrics.OneMessageForEachBatch | lib/metrics.cpp:141-184 | if nothing is refused there is exactly one message for each batch, with its time and a sample of every entry under its own id |
| Metrics.Metrics.ReadUnderLock | lib/metrics.cpp:264-275 | the sample messages of a read are those of its batches (`Metrics.Metrics.RecordAll`), and nothing is sent while metrics are off; at most one completion marker per session, only after the readers have emitted their constants; when it is sent every submitted constant has been named before it; a read in which the queue refuses nothing sends it |
| Metrics.Metrics.LoadFlag | lib/metrics.cpp:332 | an announcement begins iff the flag is set |
| Metrics.Metrics.InsertDuration | lib/metrics.cpp:333 | the duration metric goes into the map under id 1; in a session that keeps the dictionary iff the map was empty |
| Metrics.Metrics.AttemptDuration | lib/metrics.cpp:334-336 | an attempt that the queue takes announces the name; one that it refuses changes nothing else |
| Metrics.Metrics.ClearFlag | lib/metrics.cpp:338 | the announcement is over and the flag clear |
| Metrics.Announcement | lib/metrics.cpp:329-340 | with any commands and refusals between its steps, an announcement that ends in a session leaves map and announced names the same dictionary iff the map was empty at the insertion, metrics were on at the push and were not switched off from the insertion on; one that ends outside a session leaves an empty map iff they were switched off from the insertion on |
| Metrics.Metrics.SendDuration | lib/metrics.cpp:195-203 | the duration is sent under id 1 with its time unless the queue refuses it; every sample stays named iff it is not sent while metrics are enabled and their metric is still to be announced |
| Metrics.Metrics.Enable | lib/metrics.cpp:86-102 | switching on starts a session that still has to announce the duration metric and complete its constants; it is sound iff the map is empty, or an announcement is between its insertion and its push and only the duration metric is there |
| Metrics.Metrics.Disable | lib/metrics.cpp:105-121 | switching off empties the map, also inside an announcement |
| Metrics.Run | lib/metrics.cpp:241-320 | every order of the metrics thread's single steps and the processor thread's commands keeps all of this until an insertion after another name, a session that starts where it cannot, or a duration sample before any name; none of this happens if nothing is read or sampled between an enable and the end of the announcement and no disable falls into an announcement |
| Metrics.Take | lib/metrics.cpp:256-318 | each single step has its effect: the insertion, the announcement, the sample messages of a read, and the duration sample |
| EventBatching.PollConserves | lib/events.enabled.cpp:70-128 | the batches of a poll hold the added entries in order, each once; reported losses add up to the total iff an entry was added or none was lost |
| EventBatching.BatchesAreWhatWasAdded | lib/events.enabled.cpp:279-289 | the batches handed on, without lost-event entries, are what the events added |
| EventBatching.BatchesAreMilliseconds | lib/events.enabled.cpp:80-90 | every batch has one millisecond iff no entry of millisecond 0 comes right before one of another; then neighbours differ |
| EventBatching.PositiveTimesAreSorted | lib/events.enabled.cpp:80-90 | timestamps of at least a millisecond satisfy the condition |
| EventBatching.PhasesAreLastBegins | lib/events.enabled.cpp:132-180 | a phase has a begin time iff its last mark is a begin, which is then its time, also from an earlier poll |
| EventBatching.EndAddsItsDuration | lib/events.enabled.cpp:152-179 | an end adds the time since its phase's last begin, and nothing without one |
| EventBatching.CounterAddsItsValue | lib/events.enabled.cpp:181-207 | a required counter adds its value at its time, those of minor words times four, and any other adds nothing |
| EventBatching.BatchIsItsGroup | lib/events.enabled.cpp:96-117 | a batch has the entries of its group, then the lost events if there are any, and the time of its last entry on the real-time clock |
| EventBatching.EntriesHaveTheirTimes | lib/events.enabled.cpp:80-117 | every entry is in a batch of its own time iff no entry of millisecond 0 comes right before one of another |
| EventBatching.PollState.AddEntry | lib/events.enabled.cpp:80-90 | the batching step |
| EventBatching.PollState.Push | lib/events.enabled.cpp:96-117 | hands on the batch with the lost events last, unless it is empty |
| EventBatching.EventRing.EventRingEnd | lib/events.enabled.cpp:152-179 | the end callback, with the phase forgotten |
| EventBatching.EventRing.EventRingCounter | lib/events.enabled.cpp:181-207 | the counter callback, with words taken to bytes |
| EventBatching.EventRing.ReadRuntimeEvents | lib/events.enabled.cpp:279-292 | a poll hands on exactly the groups that its events add |
| Framing.LengthRoundTrip | lib/protocol_handler.cpp:25-28 | every 32-bit length fits into the header and is read back from it |
| Framing.RemainingFits | lib/protocol_handler.cpp:30-35 | the read of the body stays in the buffer iff the frame has 5 to 1024 bytes, and then ends with the frame |
| Framing.FrameIsConsumed | lib/protocol_handler.cpp:16-62 | a frame that fits is consumed exactly, whatever follows |
| Framing.MessagesBeforeTheFirstMisfit | lib/protocol_handler.cpp:16-62 | exactly the messages before the first frame that does not fit are delivered |
| Framing.FramingIsExactIffFramesFit | lib/protocol_handler.cpp:16-62 | all messages are delivered unchanged and in order iff every frame fits |
| Framing.ProtocolHandler.OnReadHeader | lib/protocol_handler.cpp:16-51 | size, offset and the number of bytes to read next |
| Framing.ProtocolHandler.ReadAll | lib/protocol_handler.cpp:3-62 | reading into the one buffer delivers the messages of the stream |
| Substitution.SubstituteOption | lib/lib_opsian.cpp:96-105 | the loop ends for every non-empty search string and equals cutting at the leftmost matches and joining with the replacement |
| Substitution.PiecesPartition | lib/lib_opsian.cpp:101-104 | the pieces joined by the search string are the original, and none contains it |
| Substitution.SubstitutedLength | lib/lib_opsian.cpp:102-103 | the length changes by the same amount for every match |
| Substitution.SingleCharacterGone | lib/lib_opsian.cpp:96-105 | a single character that the replacement lacks does not occur afterwards |
| Substitution.EmptySearchNeverStops | lib/lib_opsian.cpp:101 | with an empty search string every find succeeds, so the loop does not end |

## Left out

- Memory orders of the C++ atomics: every load and store is one sequentially consistent step.
- Mutual exclusion of the map's writers is taken from `lib/concurrent_map.h:121-122`; two writers at once are not modelled, and the compare-and-swap of assign therefore always succeeds.
- The map's hash is a parameter of the model, since the key traits are a template parameter; indices are remainders, which `KeyTraits.MaskIsRemainder` justifies.
- ConcurrentMaps.ConcurrentMap.Get: the cycle guard returns `false` converted to the value type, which is the null value for the default value traits that the model assumes.
- InternalQueue.StepKeepsInv: needs room at a compare-and-swap that succeeds; without it the property is false (`InternalQueue.LapLateAcquisitionOverfills`). That fewer than a capacity of acquisitions fall between a producer's load and its compare-and-swap is sufficient (`InternalQueue.TimelyIsPossible`). A stale load can also make a push fail although there is room.
- The pushes and pop of the queues run as steps of the ring machine; only the copy and zeroing loops and the stores of a stack slot are imperative. Frame counts above the slot's buffer size are excluded, as the caller of pushStackTrace does.
- InternalQueue.RunIsAccounted: one failure counter that is never reset; the agent resets its counters at each hello.
- TLS, DNS and certificates in `lib/network.cpp`: each phase of a connect ends in an arbitrary outcome, and handlers may run meanwhile; the handshake, which blocks, is a parameter. If the receive timer fires inside a connect the socket that connect still uses is deleted; the model lets that connect fail.
- Connection.CollectorController.SendStashedNotifications: if the first sample rate is read inside another send, the stashed notifications are dropped unsent, as the source does.
- A sample rate message drained while a connection closes can switch metrics on again; the profiling and metrics settings of the message are otherwise not modelled in `Connection`.
- Serialization failures in sendWithSize, the allocation table, and thread names, sample types and times in `lib/log_writer.cpp`.
- LogWriters.LogWriter.RecordStackTrace: the stream holds everything handed to the network; which of it is sent is arbitrary and kept beside it.
- The symbol table without callbacks, as the Prometheus exporter uses it, and the wrap-around of 64-bit ids.
- libbacktrace, dladdr and the unwinder are fixed functions of the pc, and whether a pc is foreign is one of them.
- ProfileTrie.Profile.RecordStackTrace: counts are unbounded; the source's are of type int. The names at a pc are a fixed function.
- The HTTP side of the exporter, and the fixed parts of a printed line (metric name, type and segment).
- Metrics.Run: a command, a read under the lock, and each access to the flag, the map and the queue in an announcement is one atomic step, although the source shares the map without a lock there; metric ids do not wrap around at 32 bits; the time of the duty cycle and its sleeps are left out, as is the fork handler. What the queue refuses is a finite script. The run stops at the first step that breaks the session; a later disable would clear it.
- Sample values can be lost when the queue is full, after their id has been announced; only announcements of constants are guaranteed.
- `lib/proc_scanner.cpp`, `lib/cpudata_reader.cpp` and the set-up of the event ring: mostly system calls.
- Framing.ProtocolHandler.ReadAll: network errors and the parsing of a delivered message are left out; `Connection` has the handlers that a message leads to.
- Connection.CollectorController.OnFork: the sending flag is part of the model, the rest of what a child keeps (threads, timers of the event loop) is not. Handlers that run in the child before it connects can clear the flag; `Connection.ForkInsideSend` is about a child in which none does.
- ConcurrentGet.OwnValueUnlessReassigned: sufficient; the exact condition for each value is `ConcurrentGet.ReturnsIffTakenBack`. Null is possible for any key that is unbound at some moment; when a bound key can be missed is proved for one erase.
- Option parsing beyond substitution, logging, signal set-up and fork hooks.
- `lib/deps/protobuf`: vendored; only the varint of the message length is modelled.

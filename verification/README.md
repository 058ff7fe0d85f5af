# Verification model of the Modbus and DNP3 traffic generators

This project models, in Dafny, the parts of two traffic generators in which state meets concurrency,
configuration or arithmetic, and proves what they do on every input and in every interleaving.

* **Reader/writer lock and data block** (`ReadWriteLock.dfy`, `DataBlock.dfy`, `Snapshots.dfy`,
  `BlockSizes.dfy`, `WriterOrder.dfy`, `ArrivalOrder.dfy`, `Stranding.dfy`,
  `QueueOrder.dfy`). Any number of threads share one Modbus data block through the
  writer-biased lock. Each `with self.lock` section is one atomic step, a waiting thread may re-check at
  any moment because its wait times out, and inside the lock a thread touches one cell per step. Every
  completed operation is linearized. The class comment promises write order; the code does not keep it:
  a writer that leaves removes the head of the queue, whoever that is, and a writer that finds the lock
  free walks in past those that wait. The model says, for every run, exactly when writers get the lock in
  the order in which they asked for it, and exactly when a reader can be locked out for good, that is, for
  as long as all writes come from one thread; only a writer that has had to wait can free it.
* **Modbus topology** (`Topology.dfy`, `Answerable.dfy`, `AddressSupply.dfy`, `AddressChains.dfy`,
  `FromConfiguration.dfy`, `ModbusServer.dfy`, `PollScheduler.dfy`, `Division.dfy`, `ModbusEndToEnd.dfy`). From the configuration file to the masters and servers, the
  countdown loop that decides when a master polls, and the server blocks that answer. Generated addresses
  are a limited supply, and masters for which none is left are dropped silently; the model says exactly
  which. A file without "CIDR Notation" is an empty supply: all masters are dropped, although
  `test_parser.py` expects two masters of such a file. The configuration reference
  writes the poll key "Data Type"; the code reads "Data type", and the model follows the code.
* **DNP3 multiplexer** (`PointTypes.dfy`, `Multiplexer.dfy`, `MultiplexerRuns.dfy`,
  `MultiplexerOrder.dfy`, `MultiplexerLayout.dfy`). Input arrays per source and type, dirty flags, and the periodic copy to the
  outputs. The input arrays are sized by output indices; the model says exactly for which
  configurations no access leaves its array and for which a clear flag means an up-to-date output.
* **CIDR enumeration** (`Text.dfy`, `Cidr.dfy`, `CidrEnumeration.dfy`). Mask building, the carrying
  increment of an address, and the text forms.
* **Trigger log** (`TriggerLog.dfy`). The cache of trigger keys and the stations that rotate through
  their Lua files. The comment in the source says that the cache is limited to 10 keys and that the
  lowest is erased; it grows to 11 and never erases the first.
* **Database sizing and Lua updates** (`DatabaseSizing.dfy`, `LuaWalk.dfy`). Index lists, the database
  sizes they give, and the walk on the Lua stack that turns a script's table into updates.

A class or a method with a loop stands for an object or a loop of the source and is proved against a
function of the same module; the lemmas are about these functions and about all runs of them. History
that a theorem needs and the program does not keep (who was served when, which writes were granted, which
calls have returned) is recorded in fields that no step reads.

## Model

| member | source | states |
|---|---|---|
| ReadWriteLocks.ReadWriteLock.RequestReader | modbusgenerator/readwritelock.py:31-43 | the section of `acquire_reader` from the call to the first wait or to the grant, on all fields |
| ReadWriteLocks.ReadWriteLock.RecheckReader | modbusgenerator/readwritelock.py:39-43 | the section from a wake-up to the next wait or to the grant, with the removal of the readers' entry |
| ReadWriteLocks.ReadWriteLock.RequestWriter | modbusgenerator/readwritelock.py:45-56 | the section of `acquire_writer` from the call to the first wait or to the grant |
| ReadWriteLocks.ReadWriteLock.RecheckWriter | modbusgenerator/readwritelock.py:53-56 | the section from a wake-up on: the departing writer removes the head of the queue, whatever it is |
| ReadWriteLocks.ReadWriteLock.ReleaseReader | modbusgenerator/readwritelock.py:58-65 | the reader count goes down but never below 0, nothing else changes |
| ReadWriteLocks.ReadWriteLock.ReleaseWriter | modbusgenerator/readwritelock.py:67-75 | only the writer flag changes |
| DataBlocks.ThreadSafeDataBlock.Validate | modbusgenerator/threadsafe_datastore.py:23-31 | a call up to its return or its first wait: it waits exactly when a writer is pending, and otherwise answers whether the range fits and leaves the lock as it found it |
| DataBlocks.ThreadSafeDataBlock.GetValues | modbusgenerator/threadsafe_datastore.py:33-41 | likewise; a call that need not wait returns the requested slice |
| DataBlocks.ThreadSafeDataBlock.SetValues | modbusgenerator/threadsafe_datastore.py:43-50 | likewise for a writer, which waits exactly when the lock is occupied, and otherwise carries out the whole slice assignment, cell by cell |
| DataBlocks.ExclusiveRun | modbusgenerator/readwritelock.py:31-75 | in every run `readers` is the number of threads reading, the writer flag is the number of threads writing, and a writer excludes all others |
| Snapshots.EveryReplyIsLinearized | modbusgenerator/threadsafe_datastore.py:23-50 | every completed call of every run of any number of threads answers as a lone call would on the block left by a prefix of the writes in write-lock order, which holds all writes completed before the call and, for a write, ends in itself |
| Snapshots.ReadsAreSnapshots | modbusgenerator/threadsafe_datastore.py:33-41 | a `getValues` that reads cell by cell returns a slice of one block content, never a mixture |
| Snapshots.QuiescentBlock | modbusgenerator/threadsafe_datastore.py:43-50 | whenever nobody writes, the block is what all granted writes make of it, one after the other |
| Snapshots.RepliesAreSequential | modbusgenerator/threadsafe_datastore.py:23-50 | the replies of every run, in the order in which they are given, are those of a single client that makes the same calls in that order: that prefix is exactly the writes that have replied by then, and calls that do not overlap keep their order |
| Snapshots.VersionsGrow | modbusgenerator/threadsafe_datastore.py:33-50 | a later reply has seen no fewer writes, and the reply of a write more than all before it |
| Snapshots.CallsStartFromReplies | modbusgenerator/threadsafe_datastore.py:33-50 | a call starts from exactly the writes that have replied, which are no fewer than any earlier reply has seen |
| Snapshots.CompletedWritesHaveReturned | modbusgenerator/threadsafe_datastore.py:43-50 | the writes that have replied are exactly the completed ones, in write-lock order |
| BlockSizes.BlockKeepsSize | modbusgenerator/threadsafe_datastore.py:43-50 | if all writes called for fit the block, it has its size in every state of every run, in the middle of a write too |
| BlockSizes.ReadsHaveTheSize | modbusgenerator/threadsafe_datastore.py:33-41 | then every read of cells of the block is answered with exactly as many cells as it asked for |
| BlockSizes.WholeReadsSeeOneUpdate | modbusgenerator/threadsafe_datastore.py:33-50 | if all writes replace the whole block, a read of the whole block answers the values of one update or the block at the start, never a mixture |
| BlockSizes.RepliesByCells | modbusgenerator/threadsafe_datastore.py:23-50 | every reply of every run, cell by cell: the range test, the cells from the address on that there are, and what each granted write leaves in every cell |
| WriterOrder.AccountedRun | modbusgenerator/readwritelock.py:37-42 | in every run the readers' entry is queued at most once and only while the reader that queued it still waits, no `pop(0)` meets an empty queue, and there are never fewer writer conditions in the queue than waiting writers |
| WriterOrder.SurplusCountsPops | modbusgenerator/readwritelock.py:50-55 | the conditions left in the queue by nobody are exactly as many as the times a writer removed the readers' entry, so the surplus never shrinks |
| WriterOrder.OrderedRun | modbusgenerator/readwritelock.py:49-56 | in runs in which every waiting writer leaves from the head, the queue is the waiting writers in arrival order plus possibly the readers' entry |
| WriterOrder.ServedInOrderExactly | modbusgenerator/readwritelock.py:49-56 | for the writers that had to wait: they are served first come, first served and leave no orphan behind if and only if every one of them left from the head of the queue |
| ArrivalOrder.EntersInArrivalOrderExactly | modbusgenerator/readwritelock.py:5-7 | the promised write order, exactly: in every run all writers, queued or not, get the lock in the order in which they asked for it if and only if none walked in past a waiting writer and every waiting writer that was let in had the first condition behind the orphaned ones |
| ArrivalOrder.DirectEntryOvertakes | modbusgenerator/readwritelock.py:50 | a short run in which all waiting writers leave from the head and yet a writer that finds the lock free overtakes one that waits |
| ArrivalOrder.InOrderPastTheReaders | modbusgenerator/readwritelock.py:53-55 | a short run that keeps the order although a waiting writer leaves from behind the readers' entry |
| Stranding.WriteOrderIsNotGuaranteed | modbusgenerator/readwritelock.py:53-55 | a short run in which a later writer is let in before an earlier one |
| Stranding.StuckExactly | modbusgenerator/readwritelock.py:26-56 | with the lock free and somebody waiting, nobody can go on if and only if no writer waits and yet a writer's condition heads the queue |
| Stranding.ProgressUnlessPopped | modbusgenerator/readwritelock.py:26-56 | as long as no writer has removed the readers' entry, some waiter can always go on |
| Stranding.ProgressWhenHeadOrdered | modbusgenerator/readwritelock.py:26-56 | in runs in which writers leave from the head, some waiter can always go on |
| Stranding.BlockedUntilAdmission | modbusgenerator/readwritelock.py:26-56 | with a writer's condition at the head of the queue and nobody reading, no reader gets in over any continuation, however many writers enter directly, until a waiting writer has been let in |
| Stranding.LockedOutForGood | modbusgenerator/readwritelock.py:45-56 | and if all writes come from one thread that never happens: no reader gets in over any continuation with any number of writes |
| Stranding.StrandedForever | modbusgenerator/readwritelock.py:26-56 | both hold of every stranded state: whoever waits to read keeps waiting, and only writes reply |
| Stranding.StrandedWithoutWrites | modbusgenerator/readwritelock.py:26-43 | while nobody writes at all, a stranded lock stays stranded and no call returns |
| Stranding.StrandingExactly | modbusgenerator/readwritelock.py:35-56 | from a state of a run the readers can be stranded without a further misplaced removal if and only if there has been one |
| Stranding.LockedOutExactly | modbusgenerator/readwritelock.py:35-56 | from a state of a run a waiting reader can be locked out, for all continuations whose writes come from one thread, without a further misplaced removal if and only if there has been one |
| Stranding.ReadersCanBeStranded | modbusgenerator/readwritelock.py:53-55 | a short run that strands a reader |
| QueueOrder.ReadersLetWritersGoFirst | modbusgenerator/readwritelock.py:35-42 | the bias towards writers: in runs in which writers leave from the head, a reader that calls while writers wait and no reader is queued yet still waits for as long as one of these writers does |
| QueueOrder.WritersLetReadersGoFirst | modbusgenerator/readwritelock.py:49-56 | the other way round: a writer that has to wait while the readers' entry is queued still waits for as long as no waiting reader has been let in |
| Topology.JsonParser.FindAddress | modbusgenerator/cfg_json_parser.py:47-62 | the outstation address of one master: the common configured one, the inherited one, or a new one |
| Topology.JsonParser.ConnectMasters | modbusgenerator/cfg_json_parser.py:30-74 | the first pass over "Master Nodes", with the masters that are dropped and the configurations that end the program |
| Topology.JsonParser.GroupByAddress | modbusgenerator/cfg_json_parser.py:77-79 | the connected outstations grouped by address, each once, in whatever order the set is walked |
| Topology.JsonParser.ProcessNodes | modbusgenerator/cfg_json_parser.py:22-97 | what `process_nodes` builds: the masters of the first pass and one fitting server for each address in use, or an exit exactly when the configuration is not acceptable |
| Topology.SteadyNeverMissesKeys | modbusgenerator/cfg_json_parser.py:54-55 | the lookup of an inherited address never meets a missing key |
| Topology.AddMastersSteady | modbusgenerator/cfg_json_parser.py:47-72 | after any accepted list of masters every master's recorded address is the address of each of its outstations |
| Topology.AddressesAreStable | modbusgenerator/cfg_json_parser.py:64-72 | over the whole pass a generated address is never replaced by a different one |
| AddressChains.SameAddressExactly | modbusgenerator/cfg_json_parser.py:53-65 | with generated addresses that are all different, two connected outstations without an address of their own get the same one if and only if a chain of built masters, each sharing an outstation with the next, links them |
| AddressChains.TooManyExactly | modbusgenerator/cfg_json_parser.py:54-58 | a master meets several inherited addresses if and only if it joins outstations that no chain links |
| AddressChains.RefusedExactly | modbusgenerator/cfg_json_parser.py:53-62 | the choice of an address for outstations without one ends the program if and only if the master joins two chains, or needs a new address when none is left |
| Answerable.OutstationsArePartitioned | modbusgenerator/cfg_json_parser.py:76-86 | each connected outstation is in exactly one server group |
| Answerable.EveryPollIsAnswerable | modbusgenerator/cfg_json_parser.py:64-111 | every unit id and data count that a master polls is a unit of the one server at the address it polls, with exactly that count |
| Answerable.PolledBlocksHaveTheSize | modbusgenerator/outstation.py:22-37 | the polled unit is hosted, single or per unit, with four blocks of exactly the polled size |
| Answerable.UpdatesAreSeparate | modbusgenerator/cfg_json_parser.py:102-111 | every outstation of a server has a unit of its own with its own data count |
| Answerable.PortsAgreeExactly | modbusgenerator/cfg_json_parser.py:113-118 | a master dials the port its server listens on if and only if that port is the default, or the master's outstations are one exactly when the connected outstations at their address are one |
| Answerable.PortsCanDisagree | modbusgenerator/cfg_json_parser.py:113-118 | a configuration that is built and in which both masters dial 5020 while their server listens on 502 |
| Answerable.BuiltIfAndOnlyIfAcceptable | modbusgenerator/cfg_json_parser.py:41-125 | the program goes on exactly with the acceptable configurations |
| Answerable.OrderIsIrrelevant | modbusgenerator/cfg_json_parser.py:77-95 | two walks of the same sets and dictionaries accept the same configurations and build the same masters and servers, but for the order of names |
| AddressSupply.BuiltMastersExactly | modbusgenerator/cfg_json_parser.py:30-35 | built are exactly the named masters for which an address is left, the need being counted from the configuration: one for each named master before, and one for each group of outstations that needs a new address |
| AddressSupply.NobodyIsDroppedExactly | modbusgenerator/cfg_json_parser.py:30-62 | no named master is silently dropped if and only if an address is left at the turn of each of them |
| AddressSupply.WithoutCidrNothingIsBuilt | modbusgenerator/cfg_json_parser.py:30-35 | without "CIDR Notation" every master is dropped and nothing is built |
| AddressSupply.ParserTestDropsBoth | modbusgenerator/test_parser.py:9-31 | the file of the repository's own parser test has two named masters and gives none |
| FromConfiguration.MastersFromConfiguration | modbusgenerator/cfg_json_parser.py:28-74 | of every configuration that is built: the masters are those of the listed places in order, and name, addresses, outstations, polled types with the frequency given last, and the simulation flag are what the file says or its default |
| FromConfiguration.MasterKnowsUnits | modbusgenerator/cfg_json_parser.py:69-70 | a built master knows exactly the units of its outstations with their data counts, by default 0 and 10, and dials the port of a lone outstation or 502 |
| FromConfiguration.ServersFromConfiguration | modbusgenerator/cfg_json_parser.py:83-125 | every field of a built server from the file: units up to 247, all different, with their data counts, simulation flag and port, with their defaults |
| FromConfiguration.PassRefusedExactly | modbusgenerator/cfg_json_parser.py:36-70 | the first pass ends the program exactly at the first master without an interface or with unknown outstations, different ports, different configured addresses, several inherited addresses, or no address left |
| FromConfiguration.BuiltExactly | modbusgenerator/cfg_json_parser.py:22-125 | and the program goes on exactly if no master is refused and no group at one address has different ports, simulated and real members, equal or too large unit ids, or no interface |
| ModbusServer.Outstation.BuildStore | modbusgenerator/outstation.py:22-37 | the server answers for every unit of its datastore with four zeroed blocks of its data count, single exactly when there is one unit |
| ModbusServer.Outstation.Ping | modbusgenerator/outstation.py:72-92 | one update writes exactly the types whose table fills the block, each as a whole, keeps all block sizes and leaves all other units alone |
| ModbusServer.UpdatedByName | modbusgenerator/outstation.py:64-91 | after an update each of the four blocks is what the script returned under its name, if that fills it, and otherwise what it was |
| ModbusServer.FreshBlocksHoldZeros | modbusgenerator/outstation.py:22-36 | the four blocks of a fresh unit hold as many zeros as its data count |
| PollScheduler.MasterStation.RunRound | modbusgenerator/master_station.py:28-41 | one round of `run`: sleep for the least countdown, poll exactly what has run out, and update all countdowns |
| PollScheduler.MasterStation.PollOutstations | modbusgenerator/master_station.py:47-77 | exactly one read per unit and known due type, for the data count of the unit, and nothing else |
| PollScheduler.RequestsByName | modbusgenerator/master_station.py:52-76 | coils are read if and only if "Coils" is due, and so for the other three names; no other name causes a read |
| PollScheduler.NothingToPoll | modbusgenerator/master_station.py:28-31 | without polls the loop sleeps a second at a time |
| PollScheduler.ClosedForm | modbusgenerator/master_station.py:27-41 | at every loop head with T seconds slept each countdown is f - T mod f and the type has been polled T div f times |
| PollScheduler.PolledAtMultiples | modbusgenerator/master_station.py:32-40 | every wake-up polls something, and exactly the types whose frequency divides its time |
| PollScheduler.RefinesTicker | modbusgenerator/master_station.py:32-40 | the trace of times and polled types is that of a ticker that wakes every second, without its empty ticks |
| PollScheduler.TimeAdvancesExactly | modbusgenerator/master_station.py:32-34 | time moves on in every round if and only if all frequencies are positive |
| PollScheduler.SleepNeverRaisesExactly | modbusgenerator/master_station.py:32-34 | no sleep raises if and only if no frequency is negative, and otherwise the very first one does |
| PollScheduler.ReturnsToStart | modbusgenerator/master_station.py:39-40 | at every common multiple of the frequencies the loop is at its head with the initial dictionary |
| ModbusEndToEnd.EveryRequestIsAnswered | modbusgenerator/master_station.py:47-67 | every read request of every round meets, at the address it is sent to, a block of its type with exactly the requested number of cells |
| ModbusEndToEnd.EveryRequestGetsOneUpdate | modbusgenerator/outstation.py:72-92 | over every run of the server's threads with whole updates, such a request is answered with exactly the requested number of cells, all from one update or all from before the first |
| ModbusEndToEnd.ScriptValuesReachPolls | modbusgenerator/outstation.py:80-91 | what a script returns under a name, if it fills the block, is what the block holds that a poll of that name asks for |
| Multiplexer.MappingOutstation.constructor | dnp3generator/MappingOutstation.cpp:128-158 | the zeroed input arrays, sized by the output indices of their source and type, the outputs, and clear flags |
| Multiplexer.MappingOutstation.ReceiveBatch | dnp3generator/MappingSoeHandler.cpp:71-100 | one callback for one destination: the input array after all events, and the flag |
| Multiplexer.MappingSoeHandler.ProcessBatch | dnp3generator/MappingSoeHandler.cpp:102-164 | one callback for all destinations; one that is listed twice ends as if it were listed once |
| Multiplexer.MappingOutstation.PassThru | dnp3generator/MappingOutstation.cpp:160-201 | the periodic step: all sources and flags in order, or an access out of bounds |
| Multiplexer.CellsAreIndependent | dnp3generator/MappingSoeHandler.cpp:83-93 | an event changes no other cell than its own |
| Multiplexer.StoredPointExplained | dnp3generator/MappingSoeHandler.cpp:84-92 | the stored point is that of the latest event that changed the value or carried a time |
| Multiplexer.ReplayChangesNothing | dnp3generator/MappingSoeHandler.cpp:73-97 | replaying a batch straight after itself changes nothing |
| MultiplexerRuns.OutputsShowLastReceived | dnp3generator/MappingOutstation.cpp:160-201 | right after a periodic step, in every interleaving, each mapped output shows the last value received for its source, type and input index, or 0 |
| MultiplexerRuns.ShowsLastExactly | dnp3generator/MappingOutstation.cpp:160-201 | this holds of all outputs in all runs if and only if no output is fed by two different inputs |
| MultiplexerRuns.PassSettles | dnp3generator/MappingOutstation.cpp:165-198 | right after a periodic step each mapped output agrees with its input in value and timestamp |
| MultiplexerRuns.UnmappedOutputsNeverChange | dnp3generator/MappingOutstation.cpp:165-198 | outputs without a mapping never change |
| MultiplexerRuns.NeverOutOfBoundsExactly | dnp3generator/MappingOutstation.cpp:135-179 | no run leaves an array if and only if every input index is below the size that the output indices of its source and type give and every output index is inside the database |
| MultiplexerRuns.CoherentExactly | dnp3generator/MappingOutstation.cpp:168-198 | in every reachable state a clear flag means up-to-date outputs if and only if no output is fed by two different inputs |
| MultiplexerRuns.InKinds | dnp3generator/MappingOutstation.cpp:165-198 | multiplexed are exactly analog inputs, binary inputs and counters |
| MultiplexerOrder.LastFeederDecides | dnp3generator/MappingOutstation.cpp:165-198 | a periodic step in any configuration: an output that no set flag feeds is left alone, any other takes value and time from the last point that feeds it, in the order of the sources and of their points |
| MultiplexerOrder.StartsAtZero | dnp3generator/MappingOutstation.cpp:128-158 | at first all inputs and outputs are 0 at time 0 and no flag is set |
| MultiplexerLayout.LayoutOfNodeIsParsed | dnp3generator/CfgJsonParser.cpp:272-286 | in every parsed node the mapped points of all sources are data points and the database sizes are those of the data points |
| MultiplexerLayout.EveryNodeHasLayout | dnp3generator/MappingOutstation.cpp:128-158 | every node gives its outstation a layout: each source of the map once, with its points and the database sizes |
| MultiplexerLayout.InputSizeIsLeast | dnp3generator/MappingOutstation.cpp:135-139 | an input array has one cell more than the largest output index of its source and type, or none; the input indices have no part in it |
| MultiplexerLayout.ParsedLayoutInBoundsExactly | dnp3generator/CfgJsonParser.cpp:272-286 | so the database is large enough for all output indices; what remains is that none is negative and that input indices stay below the derived size |
| MultiplexerLayout.ParsedNodeRunsExactly | dnp3generator/MappingOutstation.cpp:128-201 | from the parsed node to all runs of its outstation: no run leaves an array if and only if all mapped points meet that condition |
| MultiplexerLayout.DownwardMappingIsSafe | dnp3generator/CfgJsonParser.cpp:272-286 | a parsed node in which no input index exceeds its output index is safe in every run |
| Text.SplitText | dnp3generator/StringUtilities.cpp:19-29 | the tokens that repeated `getline` delivers |
| Text.ReadShown | dnp3generator/CidrCalculator.cpp:17-25 | a printed number is read back as itself |
| Text.SplitExactly | dnp3generator/StringUtilities.cpp:19-29 | the tokens are without delimiters and make up the text with the delimiters put back; a final delimiter makes no token |
| Text.ShownByDigits | dnp3generator/CidrCalculator.cpp:88-90 | a number is printed digit by digit in base ten, without leading zeros |
| Text.ReadSigned | dnp3generator/CidrCalculator.cpp:17-25 | signs are understood, and numbers beyond the width of an int are cut off at it |
| Cidr.CidrCalculator.constructor | dnp3generator/CidrCalculator.cpp:10-52 | the network address of the text: its octets under the mask of its prefix length |
| Cidr.CidrCalculator.BuildMask | dnp3generator/CidrCalculator.cpp:38-42 | setting the bits one by one gives four octets of leading ones |
| Cidr.CidrCalculator.GetNextIpAddress | dnp3generator/CidrCalculator.cpp:63-91 | the next address in place, with its carries, and its dotted text |
| CidrEnumeration.NextCounts | dnp3generator/CidrCalculator.cpp:68-87 | one call is one step of a mixed-radix counter, except that the very last address wraps around to 254.0.0.1 |
| CidrEnumeration.HandedOutExactly | dnp3generator/CidrCalculator.cpp:63-90 | handed out before the wrap-around are exactly the usable addresses above the start |
| CidrEnumeration.StrictlyIncreasing | dnp3generator/CidrCalculator.cpp:63-90 | later calls give larger addresses, so none is repeated |
| CidrEnumeration.BlockIsInterval | dnp3generator/CidrCalculator.cpp:38-52 | the addresses that agree with a network on its prefix are an interval that starts at the network address (section 3.1 of RFC 4632) |
| CidrEnumeration.EnumeratesTheBlock | dnp3generator/CidrCalculator.cpp:63-90 | from a network without an octet 255 the calls that stay in the block hand out exactly its usable addresses other than the network address |
| CidrEnumeration.StaysInBlockExactly | dnp3generator/CidrCalculator.cpp:63-90 | how long the calls stay in their block, computed before the first call, for every network, also with octets 255: up to the very last address, the k-th one is in the block if and only if k is at most the difference of two ranks |
| CidrEnumeration.InBlockExactly | dnp3generator/CidrCalculator.cpp:63-90 | the same for all calls and all networks: a block with an octet 255 behind the first is left for good, any other is entered again after the wrap-around exactly as the ranks say |
| CidrEnumeration.LeavesTheBlockOnce | dnp3generator/CidrCalculator.cpp:63-90 | so, up to the very last address, the addresses do not come back once they have left the block |
| CidrEnumeration.AllUsableExactly | dnp3generator/CidrCalculator.cpp:68-87 | all addresses ever handed out are usable if and only if no octet of the start that the first call keeps is 255 |
| CidrEnumeration.TestBlock | dnp3generator/tests/MasterTest.cpp:7-24 | of the 65535 calls in the repository's own test the first 64770 stay in 192.12.0.0/16, and the next gives 192.13.0.1 |
| CidrEnumeration.DottedRoundTrip | dnp3generator/CidrCalculator.cpp:88-90 | printing an address and reading it back with prefix length 32 gives the same four octets |
| CidrEnumeration.PrefixRoundTrip | dnp3generator/CidrCalculator.cpp:12-25 | an address in dotted notation with a prefix length up to 32 is read as written, and nothing is read with a longer one |
| CidrEnumeration.WithoutSlash | dnp3generator/CidrCalculator.cpp:12-17 | without a slash the first octet is taken for the prefix length as well |
| CidrEnumeration.TestText | dnp3generator/tests/MasterTest.cpp:7-24 | the notation of the repository's own test and the text of its first address |
| TriggerLog.ThreadSafeUserInput.UnconditionalWriter | dnp3generator/dnp3app.h:23-33 | one write: the conditional erasure, the count and the new entry |
| TriggerLog.ThreadSafeUserInput.ReadInputStr | dnp3generator/dnp3app.h:16-22 | the entry of a key, or the miss that the program turns into a null string |
| TriggerLog.ExactWindow | dnp3generator/dnp3app.h:23-33 | after n writes the retained keys are exactly 1 and those at most nine behind n, each bound to the input of its number, so never more than 11 |
| TriggerLog.LookupExactly | dnp3generator/dnp3app.h:16-22 | a lookup succeeds exactly for the first entry and for those at most nine behind the newest |
| TriggerLog.LuaStation.GetNextLuaFile | dnp3generator/Station.cpp:94-102 | the file index moves on by one or starts again |
| TriggerLog.LuaStation.FollowTriggers | dnp3generator/OutStation.cpp:239-246 | the cursor loop catches up with the history and keeps the index in step with it, and misses only entries that are no longer retained |
| TriggerLog.NeverMissesExactly | dnp3generator/OutStation.cpp:239-246 | for any interleaving of the writer and any number of stations no lookup misses if and only if every comparison comes while its entry is retained |
| TriggerLog.LateStationMisses | dnp3generator/OutStation.cpp:239-246 | a short run with a miss: of twelve inputs a station that starts late finds the first and misses the second |
| TriggerLog.RotationCounts | dnp3generator/OutStation.cpp:239-246 | in such runs every station has switched, and loaded a file, exactly as often as its key occurs among the entries it has dealt with, and its file index is that number modulo the number of its files |
| TriggerLog.CatchesUp | dnp3generator/OutStation.cpp:239-246 | from any state of a run, without further inputs, as many rounds of the loop as there are entries outstanding bring a station to the end of the history, in time if and only if these entries are retained, and then every occurrence of its key has made it switch |
| TriggerLog.LuaStation.FollowNext | dnp3generator/OutStation.cpp:240-245 | one round of the loop is one look at the count and one comparison of the run model |
| DatabaseSizing.IndexListRoundTrip | dnp3generator/CfgJsonParser.cpp:215-232 | whatever list of indices and ranges is written down, parsing gives its indices back in order |
| DatabaseSizing.OneRange | dnp3generator/CfgJsonParser.cpp:217-225 | a range with any number of hyphens: without an end that fits an int it is its start alone, and a start that does not fit ends everything |
| DatabaseSizing.RunElements | dnp3generator/CfgJsonParser.cpp:227-231 | a range is its indices from start to end, one by one |
| DatabaseSizing.Node.ReadSpec | dnp3generator/CfgJsonParser.cpp:206-233 | exactly the points of the index and of the index list are recorded, in order, and the sizes follow |
| DatabaseSizing.PointsOfElements | dnp3generator/CfgJsonParser.cpp:206-233 | the points of an entry are of its type, one for its index and one for each index of its list, in order |
| DatabaseSizing.Node.ReadMapped | dnp3generator/CfgJsonParser.cpp:268-286 | exactly the mapped points are appended, in order, to their source and to the data points, and the sizes follow |
| DatabaseSizing.ExtendedExactly | dnp3generator/CfgJsonParser.cpp:282-285 | the mapped points are added behind those of their source, and no other source changes |
| DatabaseSizing.DbSizeIsLeast | dnp3generator/CfgJsonParser.cpp:199-204 | a database size is the least that all points of the type fit, or 0 |
| DatabaseSizing.ConfigureDatabase | dnp3generator/Station.cpp:104-200 | the index map as the loop over the data points builds it |
| DatabaseSizing.IndexMapExactly | dnp3generator/Station.cpp:111-200 | the index map holds exactly the points of the five configured types |
| LuaWalk.OutStation.WalkTable | dnp3generator/OutStation.cpp:65-92 | the walk through one table takes exactly the wanted entries and leaves the stack as it was, on the break, continue and normal paths |
| LuaWalk.OutStation.PickUpdates | dnp3generator/OutStation.cpp:26-159 | the walk through `data` picks exactly the selection, or nothing when `data` is empty, and neither reads nor changes anything below its frame |
| LuaWalk.OutStation.LuaInvokeScript | dnp3generator/OutStation.cpp:26-163 | whatever was on the stack, it ends empty, and exactly the selection is applied, or nothing when `data` is empty |
| LuaWalk.SelectedExactly | dnp3generator/OutStation.cpp:70-87 | an update is made exactly for the entries whose key minus one is an accepted index of the type |
| LuaWalk.AppliedByName | dnp3generator/OutStation.cpp:65-158 | what is applied, by name: from "Analog Input" analog inputs, from "Counter" counters, from "Binary Input" binary inputs, of each exactly the entries with an accepted index, in table order, index and value read off key and value |
| LuaWalk.UpdatesFitDatabase | dnp3generator/OutStation.cpp:76-88 | every update is for a configured point and inside the database sized from the same points |

## Left out

- Notifications and fairness: a wait ends by timeout at any moment, so notifications add no states; how soon a waiting thread is scheduled is not modelled.
- Exceptions between acquiring and releasing the lock, and negative addresses of a block: not modelled.
- Range checks of the Modbus library: a block is a Python list with slice reads and slice assignment; the library's own bookkeeping of addresses is not part of this model.
- DataBlocks.ThreadSafeDataBlock: its methods describe a call up to its return or first wait; what follows a wait, and how calls interleave, is the subject of the transition system in the same file.
- Sockets, network interfaces, the named pipe, signals, logging, threads being started, and the contents of Lua scripts.
- Configuration values of unexpected JSON types, poll entries without the keys that the code reads, and an unknown "Virtual Interface": they end the program before or during parsing.
- PollScheduler: frequencies are integers, polls take no time, and a sleep lasts exactly as long as asked.
- Floating point: values of DNP3 points are an abstract kind of number, here integers.
- MappingOutstation.cpp, copying with Lua: `injectDataChanges` copies with the same loops as `passThruDataChanges` and then calls a script; only the copying is modelled.
- Updates sent to the DNP3 library repeat the copied output points and are not recorded a second time.
- Start-up of the multiplexer: the runs begin after arrays and flags are set up, and destinations are fixed.
- MasterStation.cpp's own Lua walk: it does not leave the stack balanced, and nothing is claimed about it.
- TriggerLog.LuaStation.FollowTriggers: describes the loop while no input arrives; arrivals in between are covered by the runs of the same file.
- Width of int in index arithmetic: an index equal to the largest int would overflow `index + 1` and the loop counter; indices are unbounded here.
- Text.ReadInt reads digits in base ten only, as the streams of the source do by default.
- Lua numbers are integers here; conversions of fractions, and of counters outside 32 bits, are not modelled.
- Variation tables, event buffer sizes, deadbands, DNP3 address allocation, command batches and the utility scripts: table lookups without interaction.

# Verified model of tt-umd

tt-umd is the user-mode driver for Tenstorrent accelerators.  This project models the parts
of it whose correctness depends on arithmetic, ordering or whole histories, and proves what
they promise for every input and every run.

* **ARC message queue.**  `ArcRing` is one ring of shared words at the grain of single loads
  and stores, `ArcQueueProtocol` the two rings, the firmware and the mutex-serialised
  callers as a state machine, `ArcQueueTheorems` what holds in every run, and
  `ArcMessageQueue` the driver's own loops with the firmware free to run between any two
  accesses.
* **Host-to-device memory barrier.**  `MemoryBarrier` is the protocol of many hosts with
  in-order posted writes per host and core, `MemoryBarrierQuiet` and
  `MemoryBarrierTheorems` its invariants and guarantees, `MemoryBarrierStart` which starts
  leave the flags at rest, `MemoryBarrierStray` from which states a barrier publishes
  whatever timeouts left behind, `LocalChip` the barrier as one host executes it.
* **Coordinate managers.**  `CoordNames` gives each core its names in closed form (built from
  `HarvestMask`, `TensixSlots` and `DramSlots`); `CoordinateManager`, `DefaultFill`,
  `BlackholeDram` and `CoordinateInit` are the loops that fill the first-insert-wins maps of
  `CoordinateMaps` (with `CoordinateFacts` for what partly filled maps know);
  `CoordinateTheorems` says what the finished maps look like.
* **Software-emulated chip.**  `SocDescriptor` resolves names, `SocPairs` says for cores of
  every type which pair they resolve to and which of them share one, `SwEmuleChip` creates
  backings lazily, `SwEmuleAliasing` proves what reads return after any accesses.
* **Cluster topology.**  `DisjointSet` and `ClusterIds` (cluster ids against connectivity),
  `EthLinks` (link map and its round trip), `ChipRenaming`, `ConstrainedCluster` and
  `MmioGroups` (induced subgraph, renumbering, groups by gateway).
* **Copies.**  `MmioLog`, `MemcpyToDevice` and `MemcpyFromDevice` (phased MMIO copies in all
  three compile variants), `WormholeChunks`, `WormholeSpi`, `WormholeSpiTheorems` and
  `BlackholeSpi` (flash access in chunks), `Varint` and `ProtobufField` (the Protocol Buffers field reader).
* **Simulation allocators.**  `TlbPools` and `SimulationTlbAllocator`, `SysmemArena` and
  `SimulationSysmem`.

`Modular`, `Bytes`, `Sequences` and `Wrappers` hold what several of these share.

Some properties one would expect hold only under a condition.  Each is proved with its exact
condition, most with a failing input beside it:

* A call gets its own answer from the ARC queue if and only if no earlier call pushed a
  request and then timed out waiting for the response.
* A barrier can return if and only if its core list repeats no core: with a repeat the set of
  synced cores never gets as large as the list.
* A barrier publishes what its host has written before, in every run, if and only if it
  cannot return or none of its cores is vulnerable when it takes the mutex: a SET (shown, or
  travelling) and a RESET travelling can reach the core in this order ahead of the last of
  the host's writes.  Without timeouts no core is; one timeout over an old RESET is enough.
* All runs from a driver start leave every flag at RESET with none in flight between barriers
  if and only if no flag already reads RESET at the start (or the first barrier cannot return
  at all): over an old RESET, `initialize_membars` can return with its own still travelling.
  Runs that begin with all flags at rest keep them so.
* `to_noc0_map[...]` inserts a missing name.  The finished maps are inverse to each other if
  and only if no harvested DRAM bank meets the default filling, that is, Blackhole with
  translation off or a reduced grid.
* Looking cores up by their bare translated pair finds each core if and only if the
  configuration gives no pair to cores of two types; a router at (18, 18) of a Wormhole is a
  clash.  NOC0 and NOC1 pairs always find their core.
* Without NOC translation the emulated chip tells names apart by their pair on the NOC in
  use.  Over one NOC every worker has a memory of its own.  Over both, two workers share one
  whenever the NOC1 pair of one is the NOC0 pair of the other, as (1, 1) and (8, 10) do on
  Wormhole, and one worker has one memory only if both NOCs use the same coordinates for it.
* With translation a worker is one memory over both NOCs.  No other core shares it if and
  only if no other core's pair on either NOC is a worker's translated pair; over NOC0 all
  cores but DRAM are apart if and only if no translated pair belongs to two core types.
  Whether another core is one memory over both NOCs depends on its type; ARC and PCIE cores
  of a Wormhole never are.
* Chips in one cluster are those joined by links, and in addition all that links lead to chip
  0 or to a link end without a location, because `parent[item]` inserts a missing chip as a
  child of 0.  So every cluster id is the smallest chip on any path of links if and only if
  every located chip that links lead to an end without a location is also joined to chip 0.
* The field reader takes the length of a length-delimited field from one byte and varints
  from five: it finds the end of a field exactly if the payload is shorter than 128 bytes,
  or the value below 2^35.  A field that is there is found, whatever payloads and fixed-width
  fields hold, if and only if every field before it meets that.
* The Wormhole SPI loops ignore the exit codes of SPI_READ and SPI_WRITE.  Where no message
  throws, a read returns the flash slice on every device if and only if no SPI_READ is
  refused, and a write changes exactly its slice if and only if neither kind is; after a
  refused SPI_READ an accepted SPI_WRITE stores the stale buffer to the chunk read before.
* After an error code the Blackhole SPI write locks the flash again; when sending a message
  throws, it does not.  The Wormhole write tries to lock on every exit after unlocking.
* Simulated TLB windows of nonempty pools never overlap exactly if at most one pool is in
  BAR4, whose pools all start at its base.
* An empty host buffer and the one mapped after it get the same device address, and
  unmapping either drops both.  Device addresses of a buffer resolve to its own bytes
  exactly if it is empty or page-aligned, because the page offset is added to the buffer's
  addresses but not to the registry entry.

Timeouts are a number of polls after which a wait may give up, or a nondeterministic outcome
of each check.  Hardware, firmware and other processes are nondeterministic steps or
outcomes.

## Model

| member | source | states |
|---|---|---|
| ArcRing.PointerTestsExact | device/arc/blackhole_arc_message_queue.cpp:74-82 | the full test fires exactly when `n` entries are unconsumed and the empty test exactly when none is, for pointers that wrap at `2n` |
| ArcRing.StoreMissesLiveEntries | device/arc/blackhole_arc_message_queue.cpp:84-89 | the slot a producer stores to holds no unconsumed entry |
| ArcRing.RingStepKeeps | device/arc/blackhole_arc_message_queue.cpp:68-118 | every single load, store or abort of either side keeps the ring invariant |
| ArcQueueProtocol.StepKeepsInv | device/arc/blackhole_arc_message_queue.cpp:68-160 | every step of any caller and of the firmware keeps both rings, the call in progress and the answers given so far consistent |
| ArcQueueProtocol.RunKeepsInv | device/arc/blackhole_arc_messenger.cpp:40-55 | the invariant holds throughout every run of mutex-serialised callers |
| ArcQueueTheorems.RingsAreBoundedFifos | device/arc/blackhole_arc_message_queue.cpp:68-118 | in every reachable state pointers are the counts modulo `2n`, at most `n` entries are unconsumed, and what was consumed is a prefix of what was published |
| ArcQueueTheorems.NothingLiveIsOverwritten | device/arc/blackhole_arc_message_queue.cpp:84-89 | no step changes a header word it does not own or a slot that holds an unconsumed entry, of either ring |
| ArcQueueTheorems.NthResponseAnswersNthRequest | device/arc/blackhole_arc_message_queue.cpp:140-142 | the n-th popped response is the answer to the n-th pushed request |
| ArcQueueTheorems.OrphansArePopTimeouts | device/arc/blackhole_arc_message_queue.cpp:98-107 | answers left behind count exactly the waits for a response that timed out |
| ArcQueueTheorems.OwnAnswerIffNoEarlierPopTimeout | device/arc/blackhole_arc_message_queue.cpp:140-159 | a returning call popped the answer to the request as many places before its own as pops timed out earlier; its own exactly if none did |
| ArcQueueTheorems.TimedOutPushLeavesQueueUnchanged | device/arc/blackhole_arc_message_queue.cpp:74-82 | a push that times out leaves the request area, both host pointers and all accounting as they were |
| ArcQueueTheorems.QueuesAreDisjoint | device/arc/blackhole_arc_message_queue.cpp:188-195 | queues with different indices share no byte |
| ArcMessageQueue.ArcMessageQueue.PushRequest | device/arc/blackhole_arc_message_queue.cpp:68-92 | under interference, success appends exactly this request; a timeout appends nothing and happens on a full ring only |
| ArcMessageQueue.ArcMessageQueue.PopResponse | device/arc/blackhole_arc_message_queue.cpp:94-118 | under interference, success returns the answer to the next unanswered request; a timeout leaves it as an orphan and happens on an empty ring only |
| ArcMessageQueue.ArcMessageQueue.SendMessage | device/arc/blackhole_arc_message_queue.cpp:120-160 | outcome and queue contents of a whole call for every argument count and timeout; an answer with exit code, id and status byte is reported as that exit code for a status below 240, as not recognized for 255 and as an unknown error otherwise, with words 1 to 7 |
| ArcMessageQueue.ReportsIff | device/arc/blackhole_arc_message_queue.cpp:144-158 | the parts of the first word decide the kind of outcome and the exit code, and no other is ever reported |
| ArcMessageQueue.PackRequest | device/arc/blackhole_arc_message_queue.cpp:132-138 | the type comes first, then the arguments, then zeros |
| MemoryBarrier.FinishedSweep | device/chip/local_chip.cpp:389-416 | when the polling loop ends the cores are distinct and every earlier write to them has landed |
| MemoryBarrier.StepKeepsInv | device/chip/local_chip.cpp:379-427 | every post, delivery, flag write, poll and timeout of any host keeps the barrier invariant |
| MemoryBarrierTheorems.BarrierPublishesOnCleanCores | device/chip/local_chip.cpp:422-427 | when a barrier returns, everything its host had issued to its cores before has landed, in any run and after any timeouts, if no SET showed or travelled on those cores when it took the mutex |
| MemoryBarrierTheorems.BarrierPublishesEarlierWrites | device/chip/local_chip.cpp:422-427 | the same for every run from a driver start in which no barrier has timed out before |
| MemoryBarrierTheorems.NoStaleSetBetweenBarriers | device/chip/local_chip.cpp:422-427 | between barriers no SET shows or travels, whatever the flags held at start |
| MemoryBarrierTheorems.RepeatedCoreNeverReturns | device/chip/local_chip.cpp:389-395 | only lists of distinct cores let the polling loop end, in any run |
| MemoryBarrierStray.CanReturnIff | device/chip/local_chip.cpp:389-427 | from any state with the mutex free, some run of the barrier gets to its return exactly if the list repeats no core |
| MemoryBarrierStray.AlwaysPublishesIff | device/chip/local_chip.cpp:422-427 | from any state with the mutex free, whatever timed out before, every returning run of the barrier has published exactly if the list repeats a core or no core on it is vulnerable |
| MemoryBarrierStray.FooledBarrier | device/chip/local_chip.cpp:379-427 | over a vulnerable core, a run of the barrier that is about to return while a write issued before it is still travelling |
| MemoryBarrierStray.TimeoutFoolsNextBarrier | device/chip/local_chip.cpp:111-129 | from every start over a flag that reads RESET, a run with one timeout after which some host's barrier does not always publish |
| MemoryBarrierTheorems.RepeatedStartHoldsMutex | device/chip/local_chip.cpp:389-395 | a start over a list that repeats a core never gives the mutex back without a timeout |
| MemoryBarrierQuiet.StepKeepsQuiet | device/chip/local_chip.cpp:379-427 | every step keeps each barrier's single SET or RESET per core accounted for |
| MemoryBarrierStart.AlwaysRestsIff | device/chip/local_chip.cpp:111-129 | all runs from a start rest between barriers if and only if no flag reads RESET at the start or the core list repeats a core |
| MemoryBarrierTheorems.FreshRunsRest | device/chip/local_chip.cpp:111-129 | from a start where no flag reads RESET, flags rest at RESET with no flag write in flight between barriers |
| MemoryBarrierTheorems.RunsFromRestRest | device/chip/local_chip.cpp:422-427 | runs that begin with all flags at rest and the mutex free keep them at rest between barriers |
| MemoryBarrierStart.StaleResetSurvivesStart | device/chip/local_chip.cpp:111-129 | from every start over a flag that reads RESET, whatever else is in flight, a run in which the driver's start returns with its own RESET to that core still travelling |
| LocalChip.LocalChip.SetMembarFlag | device/chip/local_chip.cpp:379-420 | for any core list: returns only when every core of a repeat-free list has shown the value, otherwise times out, or has seen every core of a list with repeats and polls on for ever |
| LocalChip.LocalChip.InsertHostToDeviceBarrier | device/chip/local_chip.cpp:422-427 | for any core list and whatever timed out before: on return everything this host had issued to the cores has landed if no core was vulnerable, and no SET is left if none was and nothing had timed out |
| HarvestMask.GetNumHarvested | device/coordinates/coordinate_manager.cpp:816-826 | counts the set bits of any mask |
| HarvestMask.GetHarvestedIndices | device/coordinates/coordinate_manager.cpp:828-841 | lists the set bits in ascending order |
| TensixSlots.ColumnSlotsPermute | device/coordinates/blackhole_coordinate_manager.cpp:103-149 | column slots are distinct; working columns keep their rank, harvested ones fill the right edge in reverse die order |
| TensixSlots.ColumnSlotsCover | device/coordinates/blackhole_coordinate_manager.cpp:135-148 | every slot is taken by some column |
| TensixSlots.RowSlotsPermute | device/coordinates/wormhole_coordinate_manager.cpp:56-87 | row slots are distinct; working rows keep their rank and harvested ones follow in row order |
| TensixSlots.RowSlotsCover | device/coordinates/wormhole_coordinate_manager.cpp:73-86 | every slot is taken by some row |
| TensixSlots.SortSorts | device/coordinates/blackhole_coordinate_manager.cpp:135-137 | the harvested columns come out in die order, none lost and none added |
| DramSlots.HarvestedBankIsLast | device/coordinates/blackhole_coordinate_manager.cpp:352-405 | the harvested bank takes the last slot of the second column, its mirror the last of the first |
| DramSlots.PortsFillRectangle | device/coordinates/blackhole_coordinate_manager.cpp:338-417 | ports of all banks stay in the two columns of k*p rows and no two share a cell |
| DramSlots.RectangleIsCovered | device/coordinates/blackhole_coordinate_manager.cpp:338-417 | every cell of the rectangle belongs to some bank and port |
| DramSlots.LogicalBank | device/coordinates/blackhole_coordinate_manager.cpp:151-164 | banks above the harvested one move down by one logical number, the others keep theirs |
| CoordNames.NamesAreUnique | device/coordinates/coordinate_manager.cpp:90-96 | in every coordinate system a name belongs to one core |
| CoordinateMaps.AddStandsKeepsSound | device/coordinates/coordinate_manager.cpp:90-96 | first-insert-wins insertion of a core's own name keeps both maps consistent and adds exactly that name |
| CoordinateMaps.SoundIsInverse | device/coordinates/coordinate_manager.cpp:90-96 | maps that hold only cores' own names are inverse to each other in every system |
| CoordinateMaps.TranslationIsPathIndependent | device/coordinates/coordinate_manager.cpp:145-179 | A to B to C equals A to C, failures included |
| CoordinateMaps.TranslationRoundTrips | device/coordinates/coordinate_manager.cpp:145-179 | A to B to A is the identity |
| CoordinateMaps.TranslationIsInjective | device/coordinates/coordinate_manager.cpp:145-179 | distinct names stay distinct |
| CoordinateMaps.DefaultInsertBreaksInverse | device/coordinates/coordinate_manager.cpp:366-379 | looking up a missing name with `[]` makes the maps fail to be inverse, whatever other names are inserted later |
| CoordinateMaps.InsertionsKeepEntries | device/coordinates/coordinate_manager.cpp:90-96 | no later insertion changes an entry of any of the three maps |
| CoordinateMaps.FirstInsertionWins | device/coordinates/coordinate_manager.cpp:90-96 | the first insertion of a name decides where it leads, the first for a location its name, and the first for a pair which core the bare pair finds |
| CoordinateMaps.AddKeepsTypes | device/coordinates/coordinate_manager.cpp:90-96 | the third map goes on listing exactly the coordinate pairs in use, each under a known name |
| CoordinateMaps.CoordAtIsKnown | device/coordinates/coordinate_manager.cpp:181-198 | literal and logical lookups are refused as such; otherwise a core is found exactly at pairs in use, and what is found is a name of that pair |
| CoordinateTheorems.TranslatedPairsFindTheirCoreIff | device/coordinates/coordinate_manager.cpp:181-198 | in the finished maps every core's bare translated pair finds that core if and only if the configuration gives no translated pair to cores of two types |
| CoordinateTheorems.ClashAtTensixStart | device/coordinates/wormhole_coordinate_manager.cpp:56-87 | on a translated Wormhole any core of another type at (18, 18) clashes with the first Tensix core |
| CoordinateTheorems.RouterClashes | device/coordinates/coordinate_manager.cpp:314-322 | a valid configuration with such a clash |
| CoordinateTheorems.NocPairsFindTheirCore | device/coordinates/coordinate_manager.cpp:181-198 | NOC0 and NOC1 pairs always find their own core |
| CoordinateManager.CoordinateManager.Enter | device/coordinates/coordinate_manager.cpp:90-96 | entering a core's own name keeps the maps sound and adds that name only |
| CoordinateManager.CoordinateManager.Lookup | device/coordinates/coordinate_manager.cpp:370-371 | a name that is there gives its location |
| CoordinateManager.CoordinateManager.LookupOrInsert | device/coordinates/coordinate_manager.cpp:370-371 | a present name gives its location, a missing one is inserted at (0, 0) |
| CoordinateManager.CoordinateManager.MapNoc1 | device/coordinates/coordinate_manager.cpp:843-869 | every core of a type is known by its NOC1 name |
| CoordinateManager.CoordinateManager.TranslateTensixColumns | device/coordinates/blackhole_coordinate_manager.cpp:75-94 | every working Tensix core is known by its logical name |
| CoordinateManager.CoordinateManager.FillTensixColumns | device/coordinates/blackhole_coordinate_manager.cpp:103-149 | every Tensix core, harvested or not, is known by the translated name of the closed form |
| CoordinateManager.CoordinateManager.TranslateTensixRows | device/coordinates/coordinate_manager.cpp:211-229 | every working Tensix core is known by its logical name |
| CoordinateManager.CoordinateManager.FillTensixRows | device/coordinates/wormhole_coordinate_manager.cpp:56-87 | every Tensix core, harvested or not, is known by the translated name of the closed form |
| CoordinateManager.CoordinateManager.TranslateBanks | device/coordinates/blackhole_coordinate_manager.cpp:151-164 | every port of a working bank is known by its logical name |
| DefaultFill.FillBanksDefault | device/coordinates/coordinate_manager.cpp:366-379 | for any harvesting: the maps come out inverse to each other if and only if no bank is harvested, and then every port is known by its NOC0 location as translated name |
| DefaultFill.InsertionPoisons | device/coordinates/coordinate_manager.cpp:370-371 | the first position past the working banks is in no sound maps, and looking it up leaves maps that are not inverse |
| BlackholeDram.MapDramBanks | device/coordinates/blackhole_coordinate_manager.cpp:303-318 | a range of logical banks whose slots are consecutive is entered under exactly those slots |
| BlackholeDram.WestRanges | device/coordinates/blackhole_coordinate_manager.cpp:352-374 | the four ranges mapped for a harvested west bank are the banks with consecutive slots |
| BlackholeDram.EastRanges | device/coordinates/blackhole_coordinate_manager.cpp:375-399 | the four ranges mapped for a harvested east bank are the banks with consecutive slots |
| BlackholeDram.FillFullDie | device/coordinates/blackhole_coordinate_manager.cpp:338-418 | on a full die every DRAM port is known by its translated name, wherever the harvested bank is |
| CoordinateInit.TranslateEth | device/coordinates/blackhole_coordinate_manager.cpp:173-186 | every working channel is known by its logical name |
| CoordinateInit.FillEthBlackhole | device/coordinates/blackhole_coordinate_manager.cpp:234-261 | working channels are known by consecutive translated names, harvested ones by their location |
| CoordinateInit.FillEthWormhole | device/coordinates/wormhole_coordinate_manager.cpp:94-114 | every channel is known by its shifted row and column |
| CoordinateInit.FillPcieBlackhole | device/coordinates/blackhole_coordinate_manager.cpp:263-296 | the first working PCIE core is known by the fixed translated name, the others by their location |
| CoordinateInit.TranslateL2cpu | device/coordinates/blackhole_coordinate_manager.cpp:215-232 | every L2CPU core is known by its location and every working one by its logical name |
| CoordinateInit.Initialize | device/coordinates/coordinate_manager.cpp:65-78 | afterwards every core is known by every name it has, unless a harvested DRAM bank met the default filling |
| CoordinateInit.AssertConstructor | device/coordinates/blackhole_coordinate_manager.cpp:59-73 | for any masks: accepts exactly those the architecture supports |
| CoordinateInit.CreateCoordinateManager | device/coordinates/coordinate_manager.cpp:65-179 | construction fails exactly on rejected masks; the finished maps are inverse to each other if and only if no harvested DRAM bank meets the default filling, and then hold exactly the names of all cores |
| CoordinateTheorems.DramFillsRectangle | device/coordinates/blackhole_coordinate_manager.cpp:303-418 | the translated DRAM names of a full die are exactly the two-column rectangle |
| CoordinateTheorems.HarvestedBankPlace | device/coordinates/blackhole_coordinate_manager.cpp:401-417 | a harvested bank is translated to the last slot of the second column |
| CoordinateTheorems.HarvestedBankHasNoLogicalName | device/coordinates/blackhole_coordinate_manager.cpp:151-164 | a harvested bank has no logical name |
| CoordinateTheorems.MirrorBankPlace | device/coordinates/blackhole_coordinate_manager.cpp:352-392 | the mirror of a harvested bank is translated to the last slot of the first column |
| CoordinateTheorems.TensixFollowsLogical | device/coordinates/blackhole_coordinate_manager.cpp:122-132 | the translated column or row of a working Tensix core is the one with its logical number |
| CoordinateTheorems.HarvestedColumnPlace | device/coordinates/blackhole_coordinate_manager.cpp:112-148 | a harvested column is translated to the place counted from the right edge by the harvested columns that the die's list names earlier |
| CoordinateTheorems.HarvestedColumnsInDieOrder | device/coordinates/blackhole_coordinate_manager.cpp:134-148 | of two harvested columns the one named first in the die's list goes further right |
| CoordinateTheorems.EthFillsRectangle | device/coordinates/wormhole_coordinate_manager.cpp:94-114 | with Ethernet cores in columns 1-4 and 6-9 of rows 0 and 6, their translated names are exactly columns 18-25 of rows 16 and 17 |
| CoordinateTheorems.TensixColumnsCovered | device/coordinates/blackhole_coordinate_manager.cpp:135-148 | every Tensix location is some core's translated location |
| CoordinateTheorems.TensixRowsCovered | device/coordinates/wormhole_coordinate_manager.cpp:56-87 | every cell of the translated grid is some core's translated location |
| CoordinateTheorems.DefaultFillFindsNamesIff | device/coordinates/coordinate_manager.cpp:366-379 | the default filling finds every name it looks up exactly if no bank is harvested |
| SocDescriptor.TranslationKeepsType | device/coordinates/coordinate_manager.cpp:145-179 | translation keeps the core type |
| SocDescriptor.WorkersResolveApart | device/soc_descriptor.cpp:220-264 | with translation two worker names resolve to the same pair, on either NOC, exactly if they name the same worker |
| SocDescriptor.UntranslatedNamesResolveByPair | device/soc_descriptor.cpp:224-226 | without translation any two names on any NOCs resolve alike if and only if their pairs on those NOCs are equal |
| SocDescriptor.UntranslatedWorkersIsolatedIff | device/soc_descriptor.cpp:224-226 | over both NOCs workers never share a pair if and only if no worker's NOC1 pair is the location of another |
| SocDescriptor.OneNocIsolates | device/soc_descriptor.cpp:224-226 | over one NOC names resolve alike exactly for one worker, translation or not |
| SocDescriptor.UntranslatedWorkerIsOneMemoryIff | device/soc_descriptor.cpp:224-226 | over both NOCs a worker is one memory if and only if both use the same coordinates for it |
| SocDescriptor.CollidingWorkers | device/api/umd/device/arch/wormhole_implementation.hpp:120-128 | with Wormhole's axis maps worker (1, 1) over NOC1 and worker (8, 10) over NOC0 resolve alike |
| SwEmuleChip.BuildWorkerSlotMap | device/chip/sw_emule_chip.cpp:24-36 | every listed worker gets the index of its own position, one slot each |
| SwEmuleChip.SWEmuleChip.GetCore | device/chip/sw_emule_chip.cpp:149-204 | creating a core shows in no memory view |
| SwEmuleChip.SWEmuleChip.WriteToDevice | device/chip/sw_emule_chip.cpp:210-217 | changes exactly the addressed bytes of the resolved tile, nothing if the name does not resolve |
| SwEmuleChip.SWEmuleChip.ReadFromDevice | device/chip/sw_emule_chip.cpp:219-226 | returns the addressed bytes of the resolved tile and changes no memory |
| SocPairs.ChannelIsBankRank | device/soc_descriptor.cpp:322-326 | every name of a DRAM core gets the rank of its bank among the unharvested ones as its channel, and none if the bank is harvested |
| SocPairs.ChannelsAgreeIff | device/soc_descriptor.cpp:322-326 | names of two DRAM cores get one channel exactly if the cores lie in one unharvested bank |
| SocPairs.ForeignNames | device/soc_descriptor.cpp:220-226 | a literal name resolves to its own pair on either NOC, any other name that no core has to none |
| SwEmuleAliasing.KeysMatchTiles | device/chip/sw_emule_chip.cpp:210-226 | names of workers and of ports of unharvested DRAM banks resolve to one key exactly if they name the same worker or bank |
| SwEmuleAliasing.DramKeysMatchBanks | device/chip/sw_emule_chip.cpp:210-226 | any DRAM name resolves exactly if its bank is unharvested, and two share a key exactly if they name ports of one such bank |
| SwEmuleAliasing.NamesOfOneCoreShareTile | device/soc_descriptor.cpp:322-326 | translating a name to any system stays on the same worker or bank |
| SocPairs.NameResolvesToPair | device/soc_descriptor.cpp:220-264 | every name of a core of any type resolves, on each NOC, to the pair given in closed form from the configuration |
| SocPairs.NamesResolveAlikeIff | device/soc_descriptor.cpp:220-264 | two names of any types over any NOCs resolve alike exactly if these pairs are equal |
| SocPairs.BothNocsReachOneMemoryIff | device/soc_descriptor.cpp:224-263 | for each core type, exactly which cores resolve alike over both NOCs |
| SocPairs.WormholeArcIsTwoMemories | device/soc_descriptor.cpp:255-261 | with Wormhole's axis maps no ARC or PCIE core resolves alike over both NOCs |
| SocPairs.WorkersPrivateIff | device/soc_descriptor.cpp:220-264 | with translation no name of another core but DRAM ever resolves to a worker's pair if and only if no such core's pair is a worker's translated pair |
| SocPairs.Noc0SeparatesCoresIff | device/soc_descriptor.cpp:220-264 | over NOC0 names of all cores but DRAM resolve alike only for one core, if and only if no translated pair belongs to two types |
| SwEmuleAliasing.RunAccesses | device/chip/sw_emule_chip.cpp:135-226 | in any sequence of accesses through names of any core type, translated or not, each read returns the bytes last written through any name that resolves alike, or nothing if it does not resolve |
| SwEmuleAliasing.TileReads | device/chip/sw_emule_chip.cpp:135-226 | with translation, these are the bytes last written to the same worker or DRAM bank through any of its names |
| SwEmuleAliasing.WorkerReads | device/chip/sw_emule_chip.cpp:135-226 | with translation and private worker pairs the same holds for workers whatever other cores are written |
| SwEmuleAliasing.Noc0Reads | device/chip/sw_emule_chip.cpp:135-226 | over NOC0 the same holds for every core but DRAM if no translated pair belongs to two types |
| DisjointSet.RootOfJoined | device/common/disjoint_set.hpp:23-27 | joining two roots makes their least one the root of both sets and changes no other |
| DisjointSet.DisjointSet.GetSet | device/common/disjoint_set.hpp:16-21 | terminates at the root, inserting a missing item under 0 |
| DisjointSet.DisjointSet.Merge | device/common/disjoint_set.hpp:23-27 | unites the sets of both items under their least root |
| ClusterIds.ClusterTopology.MergeClusterIds | device/cluster_descriptor.cpp:726-744 | in whatever order the maps are walked, every located chip gets the least id of its component |
| ClusterIds.SameIdIffConnected | device/cluster_descriptor.cpp:733-743 | two chips have one cluster id exactly if they are connected |
| ClusterIds.ConnectedIff | device/common/disjoint_set.hpp:16-27 | chips are united exactly if links join them or lead both to chip 0 or to an end without a location |
| ClusterIds.ClusterIdIsComponentIdIff | device/cluster_descriptor.cpp:726-744 | a chip's cluster id is the smallest chip on any path of links exactly if links lead it to no end without a location, or also to chip 0 |
| ClusterIds.AllIdsAreComponentIdsIff | device/cluster_descriptor.cpp:726-744 | all cluster ids are the smallest chips of their components if and only if every located chip that links lead to an end without a location is joined to chip 0 |
| ClusterIds.SameIdIff | device/cluster_descriptor.cpp:726-744 | two chips get one id exactly if links join them or lead both to chip 0 or to an end without a location |
| ClusterIds.LocatedLinksGiveComponents | device/cluster_descriptor.cpp:726-744 | the case in which all link ends have locations: ids agree exactly on chips joined by a path, and are the smallest on any path |
| ClusterIds.StrayLinkEndJoinsChipZero | device/cluster_descriptor.cpp:733-738 | a link end without a location joins its chip to chip 0 without any path |
| EthLinks.LoadAcceptsExactlyConsistentLists | device/cluster_descriptor.cpp:630-669 | a list loads exactly if its chips are known and no pair contradicts another; the result is a symmetric involution holding just the listed links |
| EthLinks.EachLinkOnce | device/cluster_descriptor.cpp:1038-1062 | a serialised map names every link, self-links included, exactly once |
| EthLinks.Serialize | device/cluster_descriptor.cpp:1038-1062 | the emitted list is a serialisation of the map |
| EthLinks.LoadOfSerialization | device/cluster_descriptor.cpp:1038-1062 | loading the serialised list gives the map back |
| EthLinks.LinkTable.LoadConnections | device/cluster_descriptor.cpp:614-669 | loads or rejects exactly like the specification, with idle channels the complement of active ones |
| EthLinks.LinkTable.LoadRemoteConnections | device/cluster_descriptor.cpp:700-723 | records remote links; a known chip's channel is idle exactly if it has neither a link nor a remote link |
| EthLinks.LastPutWins | device/cluster_descriptor.cpp:700-723 | the last remote link listed for a channel is the one that is kept |
| ChipRenaming.RemapKeys | device/cluster_descriptor.cpp:202-211 | the renamed map holds the old values under the new keys and nothing else |
| ChipRenaming.ChipsLocalFirst | device/cluster_descriptor.cpp:949-968 | lists every chip once, gateways first |
| ChipRenaming.Number | device/cluster_descriptor.cpp:490-515 | numbers the chips 0 to n-1 injectively with gateways first |
| ConstrainedCluster.Visible | device/cluster_descriptor.cpp:366-391 | expands the target chips to their whole boards as the board rule says |
| ConstrainedCluster.CreateConstrained | device/cluster_descriptor.cpp:366-515 | the result is the induced descriptor on the visible chips under an injective gateways-first renumbering |
| ConstrainedCluster.ApplyRenaming | device/cluster_descriptor.cpp:213-279 | every map of the descriptor follows the renaming |
| MmioGroups.GatewayIndex.ClosestGateway | device/cluster_descriptor.cpp:96-117 | a gateway is its own; any other chip gets a gateway of its board, or the exact failure |
| MmioGroups.GatewayIndex.FillGroups | device/cluster_descriptor.cpp:903-917 | the groups partition the chips, contain their key and stay on its board |
| MmioGroups.WholeBoardsKeepGroups | device/cluster_descriptor.cpp:483-489 | constraining to whole boards keeps each visible chip's full group and gateway |
| MmioGroups.InducedLinksAreSymmetric | device/cluster_descriptor.cpp:393-480 | the links of the constrained descriptor are symmetric again |
| MmioGroups.EachChannelLandsOnce | device/cluster_descriptor.cpp:424-466 | a channel of a visible chip stays a link to a visible peer's new number, or becomes a remote link to a hidden peer's unique id (its own number if it has none), or keeps its remote link; never both |
| MmioLog.EachByteOnce | device/pcie/device_memcpy.cpp:89-281 | an ascending log of accesses touches each byte of its range once and no other |
| MmioLog.ReplayIsCopy | device/pcie/device_memcpy.cpp:89-281 | replaying an ascending log of stores is one plain copy |
| MemcpyToDevice.MemcpyToDevice | device/pcie/device_memcpy.cpp:89-281 | in every variant the stores ascend and each is the widest that alignment and the rest allow; the first check that expires ends the copy, and on x86 and without vectors every byte is checked once, by block or store; a finished copy equals a byte copy, a timed-out one is a prefix longer than the reported progress by the last operation |
| MemcpyFromDevice.MemcpyFromDevice | device/pcie/device_memcpy.cpp:283-445 | in every variant the loads ascend and each is the widest that alignment and the rest allow; the first check that expires ends the copy, and on x86 and without vectors every byte is checked once, by block or load; the host buffer is filled, or on a timeout filled exactly up to the reported progress |
| WormholeChunks.GetAlignedParams | device/arc/wormhole_spi_tt_device.cpp:81-99 | the chunks are the smallest whole-chunk cover of the range; where the 32-bit sum wraps, power-of-two chunk sizes still give the cover modulo the range |
| WormholeChunks.PlanIsOk | device/arc/wormhole_spi_tt_device.cpp:340-351 | the pieces of the turns follow each other without gap or overlap, each in place in its chunk, and make up the request |
| WormholeSpi.Read | device/arc/wormhole_spi_tt_device.cpp:293-353 | rejects exactly out-of-range reads and fails exactly on a refused dump address or a throw; otherwise delivers, chunk by chunk, what the dump buffer held, or a prefix of it |
| WormholeSpiTheorems.ReadsRightIffNotRefused | device/arc/wormhole_spi_tt_device.cpp:326-352 | where nothing throws, reads return the flash slice on every device if and only if no SPI_READ is refused |
| WormholeSpi.ModifyChunk | device/arc/wormhole_spi_tt_device.cpp:401-443 | one turn on any device and with any replies; unless something is refused, the piece is written even when the unchanged chunk is skipped |
| WormholeSpi.CarriedTurn | device/arc/wormhole_spi_tt_device.cpp:401-443 | a turn whose messages are carried out changes exactly its piece |
| WormholeSpiTheorems.WritesRightIffNotRefused | device/arc/wormhole_spi_tt_device.cpp:397-444 | where nothing throws, writes change exactly their slice on every device if and only if no SPI_READ or SPI_WRITE is refused |
| WormholeSpiTheorems.RefusedReadWritesElsewhere | device/arc/wormhole_spi_tt_device.cpp:401-443 | a refused SPI_READ and an accepted SPI_WRITE store the data to the chunk that was read before and leave the requested chunk as it was |
| WormholeSpi.Write | device/arc/wormhole_spi_tt_device.cpp:355-468 | fails exactly if unlocking does, if the dump address is refused or a message the loop sends throws, or if locking again does; is the run of its turns; unless a chunk message is refused it changes exactly its slice, or a prefix of it if a message throws, nothing when skipping; where everything succeeds it returns with the slice written; it tries to relock on every exit after unlocking |
| BlackholeSpi.Read | device/arc/blackhole_spi_tt_device.cpp:147-183 | succeeds exactly if every chunk's message does; in range returns the flash slice, or a prefix of it on failure |
| BlackholeSpi.Write | device/arc/blackhole_spi_tt_device.cpp:185-252 | in range and on an unlocked flash, or with firmware that unlocks it, changes exactly its slice, or a prefix of it on failure; nothing when skipping or while locked; the first message that does not succeed decides the result; relocks after success or an error code |
| Varint.ParseOfEncoding | device/arc/blackhole_spi_tt_device.cpp:28-40 | an encoded value is read back within the byte budget and abandoned at the budget otherwise |
| Varint.ReadOfEncoding | device/arc/blackhole_spi_tt_device.cpp:28-40 | exactly values below 2^35 are read, modulo 2^32 |
| Varint.ReadVarint | device/arc/blackhole_spi_tt_device.cpp:28-40 | the shifting loop computes the specified value and position on any bytes |
| ProtobufField.ExtractProtobufUint32Field | device/arc/blackhole_spi_tt_device.cpp:99-143 | the scanning loop stays in bounds, terminates, and computes the specified extraction |
| ProtobufField.SkipLandsOnEnd | device/arc/blackhole_spi_tt_device.cpp:118-139 | skipping lands on the end of a field exactly if its payload is under 128 bytes or its value under 2^35 |
| ProtobufField.ExtractFindsFirst | device/arc/blackhole_spi_tt_device.cpp:99-143 | extraction from an encoded message returns the first value of the requested field, or none |
| ProtobufField.RightForAllContentsIff | device/arc/blackhole_spi_tt_device.cpp:99-143 | a field that is there is found, whatever payloads and fixed-width fields hold, if and only if every field before it has a payload under 128 bytes or a value under 2^35 |
| ProtobufField.LongPayloadHidesField | device/arc/blackhole_spi_tt_device.cpp:125-132 | a message with a 128-byte payload in which a field that is there is not found |
| TlbPools.WindowsApartIff | device/chip_helpers/simulation_tlb_allocator.cpp:79-97 | windows of nonempty pools never overlap exactly if at most one pool is in BAR4 |
| SimulationTlbAllocator.SimulationTlbAllocator.AllocateTlbIndex | device/chip_helpers/simulation_tlb_allocator.cpp:22-53 | a returned index was free and is from the first adequate pool with room; -1 exactly when all adequate pools are full |
| SimulationTlbAllocator.SimulationTlbAllocator.DeallocateTlbIndex | device/chip_helpers/simulation_tlb_allocator.cpp:55-61 | frees exactly the given index |
| SimulationTlbAllocator.SimulationTlbAllocator.FindPool | device/chip_helpers/simulation_tlb_allocator.cpp:110-123 | finds the pool that owns an index, none for negative or unknown ones |
| SimulationTlbAllocator.IndicesHaveOwnWindows | device/chip_helpers/simulation_tlb_allocator.cpp:71-97 | distinct valid indices have windows that do not overlap |
| SimulationTlbAllocator.SimulationTlbAllocator.GetTlbAddressFromIndex | device/chip_helpers/simulation_tlb_allocator.cpp:71-97 | the summing loop gives the window's address, an error exactly on unknown indices |
| SimulationTlbAllocator.SimulationTlbAllocator.GetTlbSizeFromIndex | device/chip_helpers/simulation_tlb_allocator.cpp:63-69 | the window size of the pool that owns the index, an error exactly on unknown indices |
| SysmemArena.SameAddressIffEmpty | device/chip_helpers/simulation_sysmem_manager.cpp:170-183 | the next buffer gets the same address exactly after an empty one |
| SysmemArena.FindHitsOwner | device/chip_helpers/simulation_sysmem_manager.cpp:111-120 | a nonempty range inside a live buffer finds that buffer |
| SysmemArena.UnmapDropsOneIff | device/chip_helpers/simulation_sysmem_manager.cpp:191-202 | unmapping drops just its own entry exactly if no other entry has its address |
| SysmemArena.NonemptyAddressesDiffer | device/chip_helpers/simulation_sysmem_manager.cpp:170-183 | live buffers that share an address are empty but for the last |
| SysmemArena.ResolvesIffAligned | device/chip_helpers/sysmem_buffer.cpp:113-128 | every in-range device address of a live buffer resolves to its own host byte exactly if it is empty or page-aligned |
| SimulationSysmem.SimulationSysmemManager.MapSysmemBuffer | device/chip_helpers/simulation_sysmem_manager.cpp:166-204 | the new buffer starts at the next page of the arena, behind all earlier ones and the channel region, and the arena continues behind its last page |
| SimulationSysmem.SimulationSysmemManager.Unmap | device/chip_helpers/simulation_sysmem_manager.cpp:191-202 | drops the entries with the address and keeps the rest in order |
| SimulationSysmem.SimulationSysmemManager.WriteMappedBuffer | device/chip_helpers/simulation_sysmem_manager.cpp:122-130 | changes exactly the addressed host bytes of the buffer that covers the range, or reports a miss |
| SimulationSysmem.SimulationSysmemManager.ReadMappedBuffer | device/chip_helpers/simulation_sysmem_manager.cpp:132-140 | returns the addressed host bytes, or reports a miss |
| SimulationSysmem.SimulationSysmemManager.GetMappedHostPtr | device/chip_helpers/simulation_sysmem_manager.cpp:142-152 | a place inside host memory at the address's offset in the buffer that covers it, none if no buffer does |
| SimulationSysmem.WriteThroughDevice | device/chip_helpers/sysmem_buffer.cpp:113-128 | data written through a device address of an aligned buffer lands at that offset of the buffer |

## Left out

- PCIe, ioctl, mmap, hugepage, socket and JTAG plumbing, bindings and tools: code behind library calls.
- Real time: a timeout is a poll budget or a nondeterministic outcome; logging, tracing and prefetches have no effect here.
- The firmware side of the ARC queue is an environment that answers each request once and in order, as the protocol asks of it.
- Different address words of the three barrier areas (Tensix, Ethernet, DRAM): the model has one flag word per core.
- Quasar coordinates and TLB indices: identity maps and a counter.
- YAML text: descriptors are records, connections lists of pairs; the nested link maps are maps from (chip, channel).
- ConstrainedCluster.CreateConstrained: takes the target chips as given (the visible-devices environment is one way to obtain them) and leaves out the plausibility checks that run on a renumbered descriptor.
- `coords_to_chip_ids` and the mock-cluster defaults: filled from data that the model does not relate to anything.
- The translation overload that starts from a bare pair: `get_coord_at` followed by the translation modelled here.
- `get_harvested_cores` and the per-type core lists: the L2CPU list is empty whatever the mask, the others are filters of the core lists.
- The branch that resets a Tensix mask with more bits than columns or rows: masks here fit the grid, so it is never taken.
- CoordinateInit.CreateCoordinateManager: assumes distinct NOC0 locations, injective NOC1 axis maps that cover them, Tensix, DRAM, Ethernet and PCIE masks that fit their grids, a DRAM grid no larger than the full die, one PCIE row on Blackhole, Blackhole Ethernet and PCIE cores away from their translated coordinates, and Wormhole Ethernet cores outside column 5 and row 1.
- SwEmuleAliasing.RunAccesses: accesses stay inside the memory they resolve to; the source does not check this.
- ProtobufField.RightForAllContentsIff: is about messages that hold the field; bytes of a long payload that look like a field the message does not hold are not characterised.
- The emulated chip's shared-memory pool key and its peers in other processes.
- WormholeSpi.Write: requires an in-range slice, because the source checks the range on reads only and the model has no flash beyond it; register-level lock, init and status polling are one lock step that may fail.
- WormholeSpi.Read: a message that reports an error code although it was carried out counts as a success, because the source ignores the code; a refused one leaves dump buffer and flash as they were.
- BlackholeSpi.Write: promises nothing about the flash contents for ranges beyond it, which the source does not check; sizes are below 4 GiB, the buffer has at least one byte, and the pause after each chunk is left out.
- ProtobufField.ExtractFindsFirst: groups (wire types 3 and 4) are not among the encoded fields; the reader gives up on them.
- Address arithmetic of the simulation allocators is unbounded: 64-bit wrap-around of device addresses is not modelled.
- Access modes of mapped buffers, and unmapping after the manager is gone.

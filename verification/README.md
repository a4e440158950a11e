# Verified models of the board-support algorithms

These modules model the self-contained algorithms of the CPU board's support code and prove what they
promise: the train link between the CPU and the FPGA, the block-copy DMA channel, the EEPROM driver, the
tick scheduler, the monitor counters, the configuration handshake, and the inline-ECC address mapping.

The C code changes its state in place, and so do the models. Methods follow the C code branch by branch over
arrays and class fields, and each states its whole effect through a function or a predicate on values. The
lemmas then prove properties of those functions over all inputs and over whole runs. Machine integers are
bounded subsets of `int`, and every reduction is written out.

- `Words` has the machine integers, the additive checksum, and what it detects.
- `TrainLayout` has the two bump allocators. Memory is a list of regions. Pointers are 64-bit addresses and
  PCIe addresses are 32 bits wide. A list of start addresses that never wraps ties the two together.
- `TrainTransmit` has the ping-pong transmitter as a class that records its run of get, set-length and publish
  actions.
- `TrainReceive` has both builds of the checksummed receiver over an array of 32-bit words. A car is a window
  into that array, because the summed span of a car can reach past its end.
- `DmaRing` has the descriptor ring as a transition system. CPU and hardware steps interleave freely, the CPU
  may write memory that no pending copy touches, and the driver's methods record the run they take part in.
- `Eeprom` has the page writer over a chip whose page writes wrap inside the page and whose transfers can fail.
- `TickScheduler` and `LoopTasks` have task registration, the interrupt prescaler, both forms of the tick
  handler, and the polled tasks with tick interrupts between any two of their steps.
- `MonitorCounters`, `SpiConfig` and `EccMapping` have the counter unwrapping, the echo-checked configuration,
  and the address mapping.

The fields of packed structures are also stated by their byte offsets, and addresses, constants and frame bytes
as plain numbers, so that no result depends on the name a model gives to a field.

## Where the code promises less than it seems to

Each of these is stated exactly, for all inputs.

- The two builds of the receiver look for a car's checksum in the same word except for payload lengths 65485
  to 65499, where only one of them wraps the padded length (`BuildsAgreeOnIndexIff`). So they accept the same
  cars for car sizes up to 65485, and for every larger size there is an image they judge differently
  (`BuildsDisagree`). The shipped sizes are 128 and 2048.
- Receiving cuts the announced car count to 16 inside the header and leaves the checksum as it was. The same
  image passes a second time exactly when its count was at most 16 (`ReceivableAgainIff`).
- A publish names the bank that was being filled exactly when the car id was 0, 1 or 2
  (`PublishNamesFilledBankIff`).
- A periodic task runs at its requested period exactly when the interrupt period divides 1000 microseconds
  (`PeriodExactIff`). The shipped periods 50, 100, 200 and 1000 do.
- A loop task is never early, but it can be passed over when its timer product wraps. For every period that
  registration accepts, the test is exact up to tick n after a reset if and only if the period is 0 or n is
  below 4294968 (`ExactUpToIff`). Over every run a check before that tick is exact, a check on it passes over
  the due task, and such a run exists (`CheckIsExactEarlyOn`, `CheckMissesAtFirstWrap`, `MissIsReachable`).
- The byte an error counter is unwrapped against is kept per port and not per slot. Over every run, a slot's
  total is exact after each of its reports if and only if the byte last reported for the port was each time its
  own (`ExactThroughoutIff`). Two slots reporting the same port disturb each other (`SharedPortMisleads`).
- Report identifier 564 indexes one entry past the end of its slot. A comment gives the first port group as
  1001 to 1064; the code also accepts 1000 for entry 0 (`InBoundsIff`).
- For INIT frames the configuration driver compares 12 bytes whatever the length. It accepts exactly the echoes
  if and only if the payload has 10 to 13 bytes (`InitAcceptsExactlyEchoesIff`).
- The EEPROM range test adds in 32 bits, so it also lets through requests whose sum wraps. Such a write still
  never succeeds: success implies that the range lies inside the chip (`Write`).
- The ECC translation is a bijection onto the addresses outside the holes for data addresses below
  0xF1C71C80, and wraps from there on (`NoWrapIff`, `TranslateIsMoved`).

## Model

The main results come first, module by module; after them the operations and the lemmas they rest on.

| member | source | states |
|---|---|---|
| `TrainTransmit.DriverHandoutsApart` | CPHMC_1A/common/bsp/pcie/pcie_fpga.c:1250-1353 | on the driver object: two buffers it handed out less than two publishes apart share no byte |
| `TrainTransmit.DriverAvoidsReadBank` | CPHMC_1A/common/bsp/pcie/pcie_fpga.c:1250-1353 | on the driver object: nothing it handed out since the last publish shares a byte with the bank the FPGA reads |
| `TrainTransmit.NoReuseForTwoCycles` | CPHMC_1A/common/bsp/pcie/pcie_fpga.c:1250-1353 | over every run, two handouts of the same buffer are at least two publishes apart |
| `TrainTransmit.FillBankIsNotReadBank` | CPHMC_1A/common/bsp/pcie/pcie_fpga.c:1250-1353 | over every run, nothing handed out since the last publish lies in the bank the published header names |
| `TrainTransmit.PublishedCountsAreExact` | CPHMC_1A/common/bsp/pcie/pcie_fpga.c:1302-1307 | after every run the published counts are the cars handed out since the last publish |
| `TrainTransmit.PublishedLengthsAreExact` | CPHMC_1A/common/bsp/pcie/pcie_fpga.c:1318-1338 | lengths below the count are those last set by the application, the others zero, and nothing is left for the next cycle |
| `TrainTransmit.PublishedBankIsExact` | CPHMC_1A/common/bsp/pcie/pcie_fpga.c:1309-1316 | after every run the published bank is the one every such car came from |
| `TrainTransmit.PublishedHeaderPasses` | CPHMC_1A/common/bsp/pcie/pcie_fpga.c:1340-1347 | whatever the state, the stored checksum makes the published header pass the 31-word test |
| `TrainTransmit.PublishedHead` | CPHMC_1A/common/bsp/pcie/pcie_fpga.c:1290-1353 | after every run, byte for byte: mark 0x1234, next heart beat, car id of the bank just filled, both counts, and the sum |
| `TrainTransmit.PublishedLengths` | CPHMC_1A/common/bsp/pcie/pcie_fpga.c:1318-1338 | after every run, the two bytes of every length: as last set for a car handed out, 0 for the others |
| `DmaRing.QuiescentMemory` | CPHMC_1A/common/bsp/dma/udma_mem_copy.c:179-185 | when all twenty descriptors are back, memory is the submitted copies and the CPU's own writes done one after another in order |
| `DmaRing.DmaChannel.WaitComplete` | CPHMC_1A/common/bsp/dma/udma_mem_copy.c:174-200 | OK implies nothing is pending and memory equals all copies and CPU writes since start-up in order; failure comes after time_out + 1 polls, with descriptors still missing at the last, and is counted |
| `DmaRing.DescriptorsConserved` | CPHMC_1A/common/bsp/dma/udma_mem_copy.c:37-200 | over every interleaving each descriptor is in exactly one place and the submit ring has room for the held one |
| `DmaRing.HardwareOwnedUntouched` | CPHMC_1A/common/bsp/dma/udma_mem_copy.c:95-126 | no step rewrites a descriptor the hardware owns |
| `DmaRing.HardwareProgress` | CPHMC_1A/common/bsp/dma/udma_mem_copy.c:174-200 | each hardware step does one unit of the remaining work, one is possible while work remains, and none left means the ring is full |
| `TrainLayout.SlotAddrInit` | CPHMC_1A/common/bsp/pcie/pcie_fpga.c:825-1004 | all four allocators chained over a slot: both tables agree with what the FPGA is told, are equal to it short of a 32-bit wrap, and are packed |
| `TrainLayout.SlotSound` | CPHMC_1A/common/bsp/pcie/pcie_fpga.c:1355-1394 | then nothing of the slot overlaps or leaves the window, and with aligned base and sizes all of it is 128-aligned |
| `TrainLayout.SlotPacked` | CPHMC_1A/common/bsp/pcie/pcie_fpga.c:1355-1394 | transmit trains, then receive trains from where those ended: everything of the slot is packed, whatever the tables |
| `TrainLayout.TxAllocatorsAgree` | CPHMC_1A/common/bsp/pcie/pcie_fpga.c:825-929 | for every table and bases with the same low word, wrapping or not: each address told to the FPGA is the low word of the RAM pointer, 0 for a missing bank, and so is the end |
| `TrainLayout.TxAllocatorsEqual` | CPHMC_1A/common/bsp/pcie/pcie_fpga.c:825-929 | from the same base and short of a 32-bit wrap, every address is the RAM pointer itself and both ends are equal |
| `Eeprom.Write` | CPHMC_1A/common/bsp/eeprom/eeprom_at24c.c:169-267 | whatever fails, exactly the first written bytes are in place, one page write for each page touched; success if and only if the arguments are good, the range is inside the chip and no transfer was lost |
| `Eeprom.WriteThenRead` | CPHMC_1A/common/bsp/eeprom/eeprom_at24c.c:81-267 | the two calls one after the other: inside the chip and with no transfer lost both succeed, and then the bytes come back |
| `TickScheduler.PostRate` | CPHMC_1A/common/bsp/gpio/gpio_intr_init.c:294-319 | a task has been posted n / (interval · ticks) times, and its timer is below its period in ticks |
| `TickScheduler.RunInterrupts` | CPHMC_1A/common/bsp/gpio/gpio_intr_init.c:294-319 | n interrupts on the scheduler object leave it where the clock stands, and the interrupts posted are those tasks' vectors |
| `TickScheduler.PeriodExactIff` | CPHMC_1A/common/bsp/pcie/pcie_fpga.c:1396-1415 | the time between posts is the requested period if and only if the interrupt period divides 1000 |
| `TickScheduler.TickBothWays` | tbl_qspi/app/handle_int_prog.c:40-63 | from equal timers and periods the two forms leave equal timers and post exactly the due tasks in the same order |
| `LoopTasks.NeverEarly` | A72_BareMetal/CPHMC_1A/common/app/app_register.c:115-128 | over every interleaving two starts of a task are at least its period apart |
| `LoopTasks.CallsApart` | A72_BareMetal/CPHMC_1A/common/app/app_register.c:115-128 | counted off the steps of the run alone: between any two calls of a task there are interrupts enough for its period |
| `LoopTasks.TimerIsSinceReset` | A72_BareMetal/CPHMC_1A/common/app/app_register.c:115-128 | over every interleaving, each timer is the number of interrupts since that task's own reset, modulo 2^32, whatever other tasks do |
| `LoopTasks.ExactUpToIff` | A72_BareMetal/CPHMC_1A/common/app/app_register.c:121-122 | for every period registration accepts, the 32-bit test is exact for all of the first n ticks after a reset if and only if the period is 0 or n < 4294968 |
| `LoopTasks.CheckCallsIff` | A72_BareMetal/CPHMC_1A/common/app/app_register.c:115-128 | over every interleaving, a check calls its task if and only if the interrupts since its own reset, times 1000 and modulo 2^32, reach its period; else it goes to the next task |
| `LoopTasks.CallThenReset` | A72_BareMetal/CPHMC_1A/common/app/app_register.c:121-126 | a called task is reset next, then the next one is checked; an interrupt moves the loop nowhere |
| `LoopTasks.TimerNext` | A72_BareMetal/CPHMC_1A/common/app/app_register.c:125 | one step changes the timer of a task only by an interrupt or by its own reset |
| `TrainReceive.TrainRx.RecvMcu20` | CPHMC_1A/common/bsp/pcie/pcie_fpga.c:1018-1127 | a bad header changes its error counter and nothing else; a good one yields the full new state, the header mark and the Ethernet queue |
| `TrainReceive.TrainRx.RecvOther` | CPHMC_1A/common/bsp/pcie/pcie_fpga.c:1130-1239 | the same for the other build: full new state and the deliveries |
| `TrainReceive.RecvPlaced` | CPHMC_1A/common/bsp/pcie/pcie_fpga.c:1018-1127 | a train at the place the allocator gave it: every car queued is the car of its slot, in the first bank exactly for car id 1 in byte 4 of the header |
| `TrainReceive.RecvOtherPlaced` | CPHMC_1A/common/bsp/pcie/pcie_fpga.c:1130-1239 | the same for every car delivered by the other build |
| `TrainReceive.QueuedExactly` | CPHMC_1A/common/bsp/pcie/pcie_fpga.c:1096-1119 | the queue holds exactly the accepted cars whose byte 6 is 0x02, in slot order, each with its rank and their number |
| `TrainReceive.DeliveredExactly` | CPHMC_1A/common/bsp/pcie/pcie_fpga.c:1193-1226 | the deliveries are exactly the accepted cars with byte 6 equal to 0x22, or to 0x01, 0x03 or 0x05 with a handler, in slot order, to the handler of that type |
| `TrainReceive.CarsPlaced` | CPHMC_1A/common/bsp/pcie/pcie_fpga.c:1149-1156 | car j is at base + 128 + size · j for car id 1 and one bank further for any other id |
| `TrainReceive.VerdictByBytes` | CPHMC_1A/common/bsp/pcie/pcie_fpga.c:1166-1193 | from bytes 8 and 9 of a car: length 0 or from the car size on is a length error; otherwise accepted if and only if the words up to its end, padded to 16 bytes, sum to the last one |
| `TrainReceive.EachCarCountedOnce` | CPHMC_1A/common/bsp/pcie/pcie_fpga.c:1061-1115 | what both error tables gained plus the accepted cars is the number of cars: modulo 2^32 always, and outright if no error counter wraps |
| `TrainReceive.EthCarsExact` | CPHMC_1A/common/bsp/pcie/pcie_fpga.c:1096-1103 | the collected cars are those of the slots holding an accepted Ethernet car, in slot order |
| `TrainReceive.BuildsExamineAlike` | CPHMC_1A/common/bsp/pcie/pcie_fpga.c:1018-1239 | for car sizes up to 65485 both receivers see the same verdict in every slot of every train |
| `TrainReceive.CarErrorDetected` | CPHMC_1A/common/bsp/pcie/pcie_fpga.c:1166-1193 | a car differing from an accepted one in one summed or check word, length kept, becomes a sum error |
| `TrainReceive.ReceivableAgainIff` | CPHMC_1A/common/bsp/pcie/pcie_fpga.c:1157-1160 | a received image passes the header test again if and only if its count was at most 16 |
| `MonitorCounters.TotalsTelescope` | CPHMC_1A/common/bsp/pcie/fpga_monitor_info.c:40-193 | over any reports from any slots, the totals of a port summed over the slots agree modulo 256 with the last byte |
| `MonitorCounters.ExactThroughoutIff` | CPHMC_1A/common/bsp/pcie/fpga_monitor_info.c:40-193 | over every run of in-range reports, whatever other slots report: a total is the true count after each of its own reports if and only if, at each, the byte last reported for the port was its own |
| `MonitorCounters.StatusStores` | CPHMC_1A/common/bsp/pcie/fpga_monitor_info.c:98-107 | from the bytes of the report: a port status of the four slotted groups stores slot, code and optical power, and nothing else changes |
| `MonitorCounters.SwitchStores` | CPHMC_1A/common/bsp/pcie/fpga_monitor_info.c:151-170 | a switch status stores slot and code only, in the table all slots share |
| `MonitorCounters.GeneralStores` | CPHMC_1A/common/bsp/pcie/fpga_monitor_info.c:58-82 | a general code stores slot and code only; identifiers from 500 on store the optical power only |
| `MonitorCounters.CounterStores` | CPHMC_1A/common/bsp/pcie/fpga_monitor_info.c:40-193 | a counter report adds the difference to the last byte modulo 256, and stores slot and byte, for the entry and for the port |
| `MonitorCounters.OthersIgnored` | CPHMC_1A/common/bsp/pcie/fpga_monitor_info.c:56-105 | a report of no known slot or of no known range does nothing |
| `SpiConfig.AcceptsExactlyEchoes` | CPHMC_1A/common/bsp/pcie_spi_cfg/pcie_spi_cfg.c:202-260 | for any frame but INIT, of any length: accepted if and only if head, payload and sum are the echo; the comparison of the two sums is implied |
| `SpiConfig.OtherAcceptedByWords` | CPHMC_1A/common/bsp/pcie_spi_cfg/pcie_spi_cfg.c:202-260 | the same by words 0, 1, 4 on and the sum word: any frame whose byte 2 is not 0xfe is accepted exactly with mark, payload and sum |
| `SpiConfig.InitAcceptedByWords` | CPHMC_1A/common/bsp/pcie_spi_cfg/pcie_spi_cfg.c:202-250 | a frame whose byte 2 is 0xfe is accepted exactly with the mark, words 4 to 9 as sent, and the reply's own sum, for every port and length |
| `SpiConfig.InitAcceptsExactlyEchoesIff` | CPHMC_1A/common/bsp/pcie_spi_cfg/pcie_spi_cfg.c:208-250 | for an INIT frame the driver accepts exactly the echoes, whatever comes back, if and only if the payload has 10 to 13 bytes |
| `SpiConfig.ConfiguredChannels` | CPHMC_1A/common/bsp/pcie_spi_cfg/pcie_spi_cfg.c:333-400 | afterwards none is VALID; one that was is PASS if and only if its own second transfer echoed it, and then its copy equals its data; the others are untouched |
| `SpiConfig.ConfiguredByNumbers` | CPHMC_1A/common/bsp/pcie_spi_cfg/pcie_spi_cfg.c:347-397 | state 1 becomes 2 with the copy if the channel's second transfer echoed it and 3 if not; every other state is left alone |
| `EccMapping.TranslateIncreases` | sbl_qspi/src/ecc/ecc_ddr.c:26-41 | below the limit translated addresses increase strictly and avoid the holes |
| `EccMapping.TranslateOntoTheRest` | sbl_qspi/src/ecc/ecc_ddr.c:26-41 | every DDR address outside the holes is the translation of exactly one data address below the limit |
| `TrainLayout.TxRamAddrInit` | CPHMC_1A/common/bsp/pcie/pcie_fpga.c:877-929 | for any table and base the trains are placed one after another, empty ones and ones past the count are untouched, the end is where the last footprint ends; 0 for no table |
| `TrainLayout.TxPcieAddrInit` | CPHMC_1A/common/bsp/pcie/pcie_fpga.c:825-875 | the same placement in 32-bit PCIe addresses, empty trains skipped; 0 when either table is missing |
| `TrainLayout.RxRamAddrInit` | CPHMC_1A/common/bsp/pcie/pcie_fpga.c:977-1004 | the receive trains are placed one after another; the returned end is cut to 32 bits |
| `TrainLayout.RxPcieAddrInit` | CPHMC_1A/common/bsp/pcie/pcie_fpga.c:938-975 | the same placement in PCIe addresses, announced as big cars exactly when the car size is 2048 |
| `TrainLayout.TxTablePacked` | CPHMC_1A/common/bsp/pcie/pcie_fpga.c:877-929 | all headers and cars of any number of placed trains are packed |
| `TrainLayout.RxTablePacked` | CPHMC_1A/common/bsp/pcie/pcie_fpga.c:977-1004 | the same for receive trains |
| `TrainLayout.TxStartsTotal` | CPHMC_1A/common/bsp/pcie/pcie_fpga.c:877-929 | each start is the base plus 128 + 2·small bank + 2·big bank of every non-empty train before it |
| `TrainLayout.RxStartsTotal` | CPHMC_1A/common/bsp/pcie/pcie_fpga.c:977-1004 | each start is the base plus 128 + 2·bank of every non-empty train before it |
| `TrainLayout.SlotRamAddrInit` | CPHMC_1A/common/bsp/pcie/pcie_fpga.c:1355-1394 | the start-up code for one slot leaves every header and car of both tables packed between the base and the base plus both totals |
| `TrainLayout.ShippedTablesFit` | CPHMC_1A/common/bsp/pcie/pcie_fpga.c:32-465 | the shipped tables take 627968 + 139776 bytes and fit the 1 MiB window |
| `TrainLayout.RxAllocatorsAgree` | CPHMC_1A/common/bsp/pcie/pcie_fpga.c:938-1004 | the same for receive trains, as big or as small cars |
| `TrainLayout.RxAllocatorsEqual` | CPHMC_1A/common/bsp/pcie/pcie_fpga.c:938-1004 | the same for receive trains |
| `TrainLayout.TxInfoOfPlaced` | CPHMC_1A/common/bsp/pcie/pcie_fpga.c:825-929 | what the PCIe allocator computes for a train does not depend on its RAM pointers |
| `TrainLayout.TxCarAddresses` | CPHMC_1A/common/bsp/pcie/pcie_fpga.c:877-929 | header and car j of each bank of a placed train, as byte addresses from the base |
| `TrainLayout.TxPlacingKeeps` | CPHMC_1A/common/bsp/pcie/pcie_fpga.c:877-929 | pointers behind the cars, sizes and counts are left alone, and an empty train altogether |
| `TrainLayout.RxCarAddresses` | CPHMC_1A/common/bsp/pcie/pcie_fpga.c:977-1004 | header and car j of both banks of a placed receive train, as byte addresses |
| `TrainLayout.RxPlacingKeeps` | CPHMC_1A/common/bsp/pcie/pcie_fpga.c:977-1004 | pointers behind the cars, size and count are left alone, and an empty train altogether |
| `TrainLayout.RxKindIff` | CPHMC_1A/common/bsp/pcie/pcie_fpga.c:951-966 | announced as big cars exactly for size 2048, as small ones otherwise, at the two bank addresses |
| `TrainLayout.InfoKeepsTheRest` | CPHMC_1A/common/bsp/pcie/pcie_fpga.c:825-975 | interrupt number and time in what the FPGA is told are left alone |
| `TrainLayout.TxAddrInit` | CPHMC_1A/common/bsp/pcie/pcie_fpga.c:825-929 | RAM pointers, then PCIe addresses read off the same table: every address agrees with its pointer, and is equal to it from the same base without wrap |
| `TrainLayout.RxAddrInit` | CPHMC_1A/common/bsp/pcie/pcie_fpga.c:938-1004 | the same for receive trains |
| `TrainTransmit.TrainTx.constructor` | CPHMC_1A/common/bsp/pcie/pcie_fpga.c:32-371 | a fresh train has no car taken and no length set |
| `TrainTransmit.TrainTx.GetBuff` | CPHMC_1A/common/bsp/pcie/pcie_fpga.c:1250-1282 | the next car of the bank the FPGA is not reading, with its number, and the recorded run gains that handout; -1, no buffer and no change when none is left |
| `TrainTransmit.NextBufferAt` | CPHMC_1A/common/bsp/pcie/pcie_fpga.c:1259-1277 | the next buffer of a placed train as a byte address: in the second bank while car id 1 is published, else in the first |
| `TrainTransmit.TrainTx.UpdateHeader` | CPHMC_1A/common/bsp/pcie/pcie_fpga.c:1290-1353 | one publish step on the whole state and on the recorded run; -1 and no change without a header |
| `TrainTransmit.PingPongExec` | CPHMC_1A/common/bsp/pcie/pcie_fpga.c:1250-1353 | over every run from car id 0, 1 or 2: banks alternate with the publishes, write indices stay in range, handouts come in order |
| `TrainTransmit.PublishNamesFilledBankIff` | CPHMC_1A/common/bsp/pcie/pcie_fpga.c:1309-1316 | a publish names the filled bank if and only if the car id was 0, 1 or 2 |
| `TrainTransmit.CountIsIndex` | CPHMC_1A/common/bsp/pcie/pcie_fpga.c:1250-1353 | over every run the write index is the number of cars of its kind handed out since the last publish |
| `TrainTransmit.PendingIsLastSet` | CPHMC_1A/common/bsp/pcie/pcie_fpga.c:1318-1338 | over every run a pending length is the one last set since the last publish, else zero |
| `TrainTransmit.HeartBeatCountsPublishes` | CPHMC_1A/common/bsp/pcie/pcie_fpga.c:1299-1301 | over every run the heart beat counts the publishes modulo 2^16 and no other header field changes |
| `TrainTransmit.ReadBack` | CPHMC_1A/common/bsp/pcie/pcie_fpga.h:302-316 | the fields read off the 32 words of a header are the fields written: a round trip of the packed layout |
| `TrainTransmit.HeadBytes` | CPHMC_1A/common/bsp/pcie/pcie_fpga.h:302-316 | mark, heart beat, car id and both counts are at bytes 0, 2, 4, 5 and 6 |
| `TrainTransmit.LengthBytes` | CPHMC_1A/common/bsp/pcie/pcie_fpga.h:302-316 | the lengths of car i are at bytes 16 + 2i and 48 + 2i |
| `TrainTransmit.CarsApart` | CPHMC_1A/common/bsp/pcie/pcie_fpga.c:877-929 | two different cars of a placed train share no byte |
| `TrainTransmit.HandoutsApart` | CPHMC_1A/common/bsp/pcie/pcie_fpga.c:1250-1353 | in memory: buffers handed out less than two publishes apart share no byte |
| `TrainTransmit.HandoutApartFromReadBank` | CPHMC_1A/common/bsp/pcie/pcie_fpga.c:1250-1353 | in memory: a buffer being filled shares no byte with any car of the bank the FPGA reads |
| `TrainTransmit.TrainTx.SetLen` | CPHMC_1A/common/bsp/pcie/pcie_fpga.c:1318-1338 | the length of one car is set, and nothing else changes |
| `TrainReceive.ChecksumIndex` | CPHMC_1A/common/bsp/pcie/pcie_fpga.c:1176-1182 | the word index in 16-bit arithmetic; below 65485 bytes it is the last word of the padded car |
| `TrainReceive.CheckCar` | CPHMC_1A/common/bsp/pcie/pcie_fpga.c:1166-1193 | length test, padded sum and port type give the verdict on one car |
| `TrainReceive.BuildsAgreeOnIndexIff` | CPHMC_1A/common/bsp/pcie/pcie_fpga.c:1075-1085 | both builds use the same checksum word if and only if the payload length is not in 65485..65499 |
| `TrainReceive.BuildsAgree` | CPHMC_1A/common/bsp/pcie/pcie_fpga.c:1061-1115 | for car sizes up to 65485 both builds give every car the same verdict |
| `TrainReceive.BuildsDisagree` | CPHMC_1A/common/bsp/pcie/pcie_fpga.c:1176-1182 | for every larger car size one image is accepted by one build and a sum error for the other |
| `TrainReceive.TrainRx.OpenTrain` | CPHMC_1A/common/bsp/pcie/pcie_fpga.c:1138-1160 | accepts exactly the headers whose last word is the sum of the others, then cuts the count to 16 in place; otherwise only the error counter changes |
| `TrainReceive.TrainRx.ScanMcu20` | CPHMC_1A/common/bsp/pcie/pcie_fpga.c:1061-1115 | the loop over the cars collects the accepted Ethernet cars and counts every error in its slot |
| `TrainReceive.TrainRx.ScanOther` | CPHMC_1A/common/bsp/pcie/pcie_fpga.c:1162-1231 | the loop of the other build delivers accepted cars by type and counts them by type |
| `TrainReceive.SlotsExact` | CPHMC_1A/common/bsp/pcie/pcie_fpga.c:1061-1115 | those slots are exactly the accepted ones of the given types, strictly increasing |
| `TrainReceive.DeliveredExact` | CPHMC_1A/common/bsp/pcie/pcie_fpga.c:1193-1226 | the deliveries are the accepted cars of the types with a handler, in slot order |
| `TrainReceive.CountEthTotal` | CPHMC_1A/common/bsp/pcie/pcie_fpga.c:1100 | the Ethernet counter grows by the number of those slots modulo 2^32 |
| `TrainReceive.CountTypesTotal` | CPHMC_1A/common/bsp/pcie/pcie_fpga.c:1195-1221 | each type counter grows by the number of accepted cars of its type |
| `TrainReceive.ClampedCount` | CPHMC_1A/common/bsp/pcie/pcie_fpga.c:1157-1160 | the count used is the smaller of the announced count and 16, and the car id next to it stays |
| `TrainReceive.ClampedBytes` | CPHMC_1A/common/bsp/pcie/pcie_fpga.c:1157-1160 | receiving changes no byte of the image but the count, and that only to cut it to 16 |
| `TrainReceive.HeaderFields` | CPHMC_1A/common/bsp/pcie/pcie_fpga.h:279-300 | car id and count are bytes 4 and 5 of the header |
| `TrainReceive.CarFields` | CPHMC_1A/common/bsp/pcie/pcie_fpga.h:336-353 | port type is byte 6 of a car and payload length bytes 8 and 9 |
| `TrainReceive.HeaderOkIff` | CPHMC_1A/common/bsp/pcie/pcie_fpga.c:1138-1146 | a header passes if and only if its first 31 words sum to the last one modulo 2^32 |
| `TrainReceive.ErrorsBySlot` | CPHMC_1A/common/bsp/pcie/pcie_fpga.c:1169-1172 | the error counter of a slot moves by one exactly for its own verdict |
| `TrainReceive.HeaderErrorDetected` | CPHMC_1A/common/bsp/pcie/pcie_fpga.c:1138-1146 | a header in memory differing from an accepted one in one of its 32 words is rejected |
| `TrainReceive.PublishedFrameAccepted` | CPHMC_1A/common/bsp/pcie/pcie_fpga.c:1138-1146 | a published header passes the receiver's test wherever it lies in memory |
| `TrainReceive.SumIndexEndsCarIff` | CPHMC_1A/common/bsp/pcie/pcie_fpga.c:1075-1085 | the checksum is the last word of the car padded to 16 bytes if and only if the payload is shorter than 65485 bytes, or 65500 in the other build |
| `DmaRing.StepCirculates` | CPHMC_1A/common/bsp/dma/udma_mem_copy.c:130-172 | no step reorders the descriptors; only a completion turns the circle, by one place |
| `DmaRing.StepKeepsValid` | CPHMC_1A/common/bsp/dma/udma_mem_copy.c:130-172 | every CPU or hardware step keeps the twenty descriptors in circulation and requests in bounds |
| `DmaRing.HeldNotOwnedByHardware` | CPHMC_1A/common/bsp/dma/udma_mem_copy.c:144-166 | the descriptor the CPU holds is in no ring and not with the hardware |
| `DmaRing.TickKeepsFaithful` | CPHMC_1A/common/bsp/dma/udma_mem_copy.c:130-172 | every step keeps: finishing the pending requests would give what the whole history of copies and CPU writes gives in order |
| `DmaRing.RunKeepsFaithful` | CPHMC_1A/common/bsp/dma/udma_mem_copy.c:130-172 | the same over every interleaving from start-up |
| `DmaRing.CopyIsMove` | CPHMC_1A/common/bsp/dma/udma_mem_copy.c:95-126 | the byte-by-byte copy of buffers that do not overlap is a plain block move |
| `DmaRing.CopiedByte` | CPHMC_1A/common/bsp/dma/udma_mem_copy.c:95-126 | byte for byte: the source at the destination, every other byte as before |
| `DmaRing.DmaChannel.constructor` | CPHMC_1A/common/bsp/dma/udma_mem_copy.c:37-93 | start-up puts all twenty descriptors on the completion ring, with nothing requested |
| `DmaRing.DmaChannel.HardwareStep` | CPHMC_1A/common/bsp/dma/udma_mem_copy.c:130-200 | a possible hardware step extends the recorded run by exactly that step, an impossible one does nothing |
| `DmaRing.DmaChannel.TrpdInit` | CPHMC_1A/common/bsp/dma/udma_mem_copy.c:95-126 | the held descriptor gets the new request |
| `DmaRing.DmaChannel.TakeDescriptor` | CPHMC_1A/common/bsp/dma/udma_mem_copy.c:139-160 | success holds a descriptor; failure comes after exactly 0x1000001 polls, with the completion ring empty at the last, and is counted |
| `DmaRing.DmaChannel.Memcpy` | CPHMC_1A/common/bsp/dma/udma_mem_copy.c:130-172 | success appends exactly this copy to the requests; failure requests nothing and is counted |
| `DmaRing.StoreKeepsFaithful` | CPHMC_1A/common/bsp/dma/udma_mem_copy.c:130-200 | a byte the CPU writes outside everything still to be copied joins the history in its place |
| `DmaRing.DmaChannel.Store` | CPHMC_1A/common/bsp/dma/udma_mem_copy.c:130-200 | such a write between two calls changes that byte and is recorded |
| `Eeprom.ByteWritesFlat` | CPHMC_1A/common/bsp/eeprom/eeprom_at24c.c:195-264 | bytes written one by one inside the chip replace exactly [offset, offset + length) |
| `Eeprom.PageWriteInPage` | CPHMC_1A/common/bsp/eeprom/eeprom_at24c.c:210-221 | a page write that stays in its page puts every byte where it belongs, though the chip wraps in the page |
| `Eeprom.PageWriteLands` | CPHMC_1A/common/bsp/eeprom/eeprom_at24c.c:226-238 | byte k of a page write lands at its address in its page, going round the end of 64 bytes; other pages keep theirs |
| `Eeprom.RangeAcceptedIff` | CPHMC_1A/common/bsp/eeprom/eeprom_at24c.c:187-191 | the 32-bit range test accepts the requests inside the chip, and exactly those others whose sum wraps to a small value |
| `Eeprom.Chip.WriteTransfer` | CPHMC_1A/common/bsp/eeprom/eeprom_at24c.c:226-238 | the chip's side of a page write: it wraps in the page, or fails without effect; a transfer lost on the bus is counted |
| `Eeprom.Chip.Poll` | CPHMC_1A/common/bsp/eeprom/eeprom_at24c.c:244-259 | the chip ignores polls while programming and answers afterwards |
| `Eeprom.Chip.ReadTransfer` | CPHMC_1A/common/bsp/eeprom/eeprom_at24c.c:133-143 | the chip's side of a read: the bytes from the address on |
| `Eeprom.WritePages` | CPHMC_1A/common/bsp/eeprom/eeprom_at24c.c:195-264 | the page loop ends, with exactly a prefix of the buffer in place, one page write for each page touched |
| `Eeprom.Read` | CPHMC_1A/common/bsp/eeprom/eeprom_at24c.c:81-167 | success fills the buffer with the chip's bytes from the offset and, inside an idle chip, fails only when a transfer is lost; a refused request leaves the buffer alone |
| `Eeprom.WriteIsFlatUpdate` | CPHMC_1A/common/bsp/eeprom/eeprom_at24c.c:195-264 | after a successful write the range holds the buffer and every other byte is as before |
| `Eeprom.ReadBack` | CPHMC_1A/common/bsp/eeprom/eeprom_at24c.c:81-267 | reading the range just written delivers the buffer |
| `TickScheduler.Scheduler.constructor` | A72_BareMetal/CPHMC_1A/common/app/app_register.c:15-23 | at start-up no task is registered, every timer is 0 and nothing is posted |
| `TickScheduler.Scheduler.RegisterLoopTask` | A72_BareMetal/CPHMC_1A/common/app/app_register.c:25-57 | accepted if and only if there is a program, both times are whole ticks and a slot is left; the used slots stay a prefix as long as the count, and the run-time table gets the program |
| `TickScheduler.Scheduler.RegisterIntrTask` | A72_BareMetal/CPHMC_1A/common/app/app_register.c:59-91 | accepted if and only if there is a program, the period is a positive number of whole ticks, the priority is 3 to 7 on the A72 and 3 to 13 on the other board, and a slot is left |
| `TickScheduler.Scheduler.RegisterIntr` | A72_BareMetal/CPHMC_1A/common/app/app_register.c:93-113 | handler i is created on vector i with task i's program and priority, up to the first creation that fails; its priority is in the board's range, and on the A72 its vector is 2 + i |
| `TickScheduler.Scheduler.SoftIntTwoPass` | tbl_qspi/app/handle_int_prog.c:40-63 | every timer counts one tick, and exactly the due tasks are posted in order and restarted |
| `TickScheduler.Scheduler.SoftIntOnePass` | A72_BareMetal/CPHMC_1A/common/app/handle_int_prog.c:26-45 | the fused loop does the same, posting number 2 + i |
| `TickScheduler.Scheduler.HardInterrupt` | CPHMC_1A/common/bsp/gpio/gpio_intr_init.c:294-319 | a soft tick exactly when the prescaler reaches its interval; otherwise only the prescaler moves |
| `TickScheduler.DueTasksExact` | tbl_qspi/app/handle_int_prog.c:55-62 | the posted tasks are exactly the due ones, each once, in table order |
| `TickScheduler.PostedAt` | tbl_qspi/app/handle_int_prog.c:55-62 | a task is posted if and only if its timer plus one, times 1000 modulo 2^32, reaches its period |
| `TickScheduler.TickedAt` | tbl_qspi/app/handle_int_prog.c:44-62 | each timer of a registered task counts one or starts again; every other timer is left alone |
| `TickScheduler.PostedVectorIsBound` | A72_BareMetal/CPHMC_1A/common/app/app_register.c:20-23 | the number posted for a task is the one its handler was created on |
| `TickScheduler.HandTurns` | tbl_qspi/app/handle_int_prog.c:57 | a timer below its period in ticks never overflows the 32-bit product, is due exactly on its last tick, and stays below |
| `TickScheduler.ClockAfter` | CPHMC_1A/common/bsp/gpio/gpio_intr_init.c:294-319 | after n interrupts prescaler, timer and post count stand where nested division says, for every n, interval and period |
| `TickScheduler.PostsPerPeriod` | CPHMC_1A/common/bsp/pcie/pcie_fpga.c:1396-1415 | then n interrupts post a task n / (period / t) times |
| `LoopTasks.DueIsNotEarly` | A72_BareMetal/CPHMC_1A/common/app/app_register.c:121-122 | a timer that passes the 32-bit test has really run for the period, however often it wrapped |
| `LoopTasks.DueIsExactEarlyOn` | A72_BareMetal/CPHMC_1A/common/app/app_register.c:121-122 | below 4294968 ticks since the reset the test is exact, for every period |
| `LoopTasks.ExecSpaced` | A72_BareMetal/CPHMC_1A/common/app/app_register.c:115-128 | the same over every interleaving of ticks with check, call and reset |
| `LoopTasks.MainLoop.RunTask` | A72_BareMetal/CPHMC_1A/common/app/app_register.c:119-127 | check, call and reset of one task with ticks before each are steps of such an interleaving |
| `LoopTasks.MainLoop.RunLoopTasks` | A72_BareMetal/CPHMC_1A/common/app/app_register.c:115-128 | one pass calls each due task at most once, in table order, and is part of such an interleaving; with no task it does nothing |
| `LoopTasks.MissedAtFirstWrapIff` | A72_BareMetal/CPHMC_1A/common/app/app_register.c:121-122 | at 4294968 ticks a task is passed over if and only if its period exceeds 704, so for every legal one but 0 |
| `LoopTasks.DueByElapsed` | A72_BareMetal/CPHMC_1A/common/app/app_register.c:121-122 | the test depends on the ticks really elapsed only through their product with the tick length modulo 2^32 |
| `LoopTasks.CheckIsExactEarlyOn` | A72_BareMetal/CPHMC_1A/common/app/app_register.c:115-128 | over every interleaving, a check fewer than 4294968 interrupts after the task's own reset calls it if and only if it is due |
| `LoopTasks.CheckMissesAtFirstWrap` | A72_BareMetal/CPHMC_1A/common/app/app_register.c:115-128 | over every interleaving, a check exactly 4294968 interrupts after the reset goes to the next task though this one is due, for every legal period but 0 |
| `LoopTasks.MissIsReachable` | A72_BareMetal/CPHMC_1A/common/app/app_register.c:115-128 | whatever the tasks, there is a run that comes to such a check and passes over the first task |
| `MonitorCounters.InBoundsIff` | CPHMC_1A/common/bsp/pcie/fpga_monitor_info.c:56-105 | which identifiers have a table entry: the first 65 of each port hundred, every general one but 564, and those that name nothing |
| `MonitorCounters.PortIdentifiers` | CPHMC_1A/common/bsp/pcie/fpga_monitor_info.c:95-105 | port i of each of the five groups reports its status under the group's first identifier plus 2i and its counter under the next |
| `MonitorCounters.GeneralIdentifiers` | CPHMC_1A/common/bsp/pcie/fpga_monitor_info.c:58-82 | the identifiers of the 32 general codes, their counters, and the 64 optical powers |
| `MonitorCounters.Monitor.Update` | CPHMC_1A/common/bsp/pcie/fpga_monitor_info.c:40-193 | a report changes the monitors as its decoded target says |
| `MonitorCounters.Monitor.CountErrors` | CPHMC_1A/common/bsp/pcie/fpga_monitor_info.c:111-115 | the total gains the 8-bit difference to the byte last seen at this port, which is then replaced |
| `MonitorCounters.OthersUnchanged` | CPHMC_1A/common/bsp/pcie/fpga_monitor_info.c:40-193 | a report touches one entry and at most one port's unwrapping state |
| `MonitorCounters.ExactAfterIff` | CPHMC_1A/common/bsp/pcie/fpga_monitor_info.c:111-115 | an exact total stays exact if and only if the byte remembered for the port is this slot's own last byte |
| `MonitorCounters.SingleSlotIsExact` | CPHMC_1A/common/bsp/pcie/fpga_monitor_info.c:40-193 | if one slot alone reports a port and its true count grows by less than 256 between reports, the total is the true count modulo 2^32 |
| `MonitorCounters.SharedPortMisleads` | CPHMC_1A/common/bsp/pcie/fpga_monitor_info.c:111-115 | two slots reporting the same port: the second has 5 errors and is charged with none |
| `SpiConfig.Spi.Transmit` | CPHMC_1A/common/bsp/pcie_spi_cfg/pcie_spi_cfg.c:135-164 | n words go out, and the first n words of the buffer become the reply |
| `SpiConfig.SameBytesIff` | CPHMC_1A/common/bsp/pcie_spi_cfg/pcie_spi_cfg.c:221-223 | the comparison is true if and only if all the bytes agree, an odd last byte included |
| `SpiConfig.FrameBytes` | CPHMC_1A/common/bsp/pcie_spi_cfg/pcie_spi_cfg.c:333-360 | the bytes of a channel's frame: 0x1234, type 1, port, slot, 16 words, the configuration, its sum |
| `SpiConfig.SendCfg` | CPHMC_1A/common/bsp/pcie_spi_cfg/pcie_spi_cfg.c:173-261 | the frame with its sum goes out twice, the reply of the second transfer is kept, and 0 is returned exactly when the driver's tests hold |
| `SpiConfig.InitAcceptsIff` | CPHMC_1A/common/bsp/pcie_spi_cfg/pcie_spi_cfg.c:208-250 | an accepted reply to an INIT frame is an echo if and only if the payload after the 12 compared bytes is |
| `SpiConfig.SendChannels` | CPHMC_1A/common/bsp/pcie_spi_cfg/pcie_spi_cfg.c:347-371 | every channel gets its outcome from its own transfers, in order |
| `SpiConfig.SendFt3Cfg` | CPHMC_1A/common/bsp/pcie_spi_cfg/pcie_spi_cfg.c:333-400 | transmit channels, then receive channels, on one link |
| `SpiConfig.NothingLeftToSend` | CPHMC_1A/common/bsp/pcie_spi_cfg/pcie_spi_cfg.c:347-371 | with no VALID channel nothing is sent and nothing changes, so configuring twice is configuring once |
| `SpiConfig.LateErrorAccepted` | CPHMC_1A/common/bsp/pcie_spi_cfg/pcie_spi_cfg.c:208-250 | for every longer INIT frame, a reply that is no echo and is accepted |
| `SpiConfig.EarlyErrorRejected` | CPHMC_1A/common/bsp/pcie_spi_cfg/pcie_spi_cfg.c:208-250 | for every shorter one, an echo that is rejected |
| `EccMapping.MovedAvoidsHoles` | sbl_qspi/src/ecc/ecc_ddr.c:26-41 | no data offset lands in an ECC hole, and its image gives it back |
| `EccMapping.MovedCoversTheRest` | sbl_qspi/src/ecc/ecc_ddr.c:26-41 | every offset outside the holes is the image of a data offset |
| `EccMapping.NoWrapIff` | sbl_qspi/src/ecc/ecc_ddr.c:26-41 | the image fits 32 bits if and only if the data offset is below 0x71C71C80 |
| `EccMapping.TranslateIsMoved` | sbl_qspi/src/ecc/ecc_ddr.c:26-41 | the 32-bit code computes that mapping exactly below the limit, and 2^32 less from there on |
| `Words.Checksum` | CPHMC_1A/common/bsp/pcie/pcie_fpga.c:1340-1347 | the summing loop returns the exact sum of all words modulo 2^32 |
| `Words.OneWordErrorDetected` | CPHMC_1A/common/bsp/pcie/pcie_fpga.c:1138-1146 | changing any one word of an accepted frame, summed word or check word, makes it rejected |
| `Words.TwoWordErrorMissedIff` | CPHMC_1A/common/bsp/pcie/pcie_fpga.c:1138-1146 | changing two summed words is missed exactly when the changes cancel modulo 2^32 |

## Left out

- TI driver libraries: rings, I2C, SPI, interrupts and caches are small abstract devices or no effect; delays and logging are dropped.
- 32-bit pointers: pointers are kept as the 64-bit addresses the code computes before the cast to a pointer.
- TrainLayout.TxRamAddrInit: requires at most 16 cars of a kind, because the code would overflow its pointer tables otherwise; the shipped tables have 0 or 16. So do the methods that call it.
- TrainLayout.RxRamAddrInit: the same for receive trains.
- The split of slot 0/1 for the C7x core (`USE_C66x_RAM`) calls the same allocators on parts of the tables at two bases and is not modelled; NULL train arguments of get, publish and receive are not either.
- RAM layout and 64-bit wrap: the layout is proved packed as long as it ends below 2^64, and the RX base is the full end address of TX.
- TrainTransmit.TrainTx.GetBuff: requires a header while cars are left, because the code reads it through the pointer then.
- TrainReceive.TrainRx.RecvMcu20: the branch for the MCU1_1 build inside the MCU2_0 build, which no build compiles, is not modelled.
- TrainReceive.TrainRx.RecvOther: registered handlers are a set of frame types, and a delivery is recorded; what a handler does, also to memory, is not modelled.
- Receiver memory: both receivers require that what they read of a car lies inside the buffer, since the length test lets the summed span pass the end of a car.
- DmaRing.DmaChannel.Memcpy: ring operations on a non-empty or non-full ring succeed, the length fits the descriptor's count field, and both buffers lie in memory; fixed descriptor flags and dimensions are not modelled.
- DmaRing.DmaChannel.constructor, DmaRing.DmaChannel.TrpdInit: fixed flags, dimensions and the response word of a descriptor are not modelled.
- DmaRing.DmaChannel.Store: bytes of a copy still pending are not written by the CPU, and concurrent CPU writes during a call are not modelled.
- DmaRing.DmaChannel.WaitComplete: the inner delay loop is dropped. The hardware moves bytes in order, one request after another, and may fetch ahead.
- Eeprom.Chip.Poll: the chip answers after finitely many polls; the code would wait for ever otherwise.
- Eeprom.Chip.WriteTransfer: a failed transfer has no effect, a page write carries at most 64 bytes, and no device answers at the second bus address.
- Eeprom.Read: a failed read may leave any bytes in the buffer.
- TickScheduler.Scheduler.RegisterIntr: only interrupt number, program and priority of a handler are kept; trigger mode, enable flag and the stored handle are not.
- TickScheduler.RunInterrupts: tasks are registered before the first interrupt, and the handler's own extra work in a soft interrupt is not part of this model.
- LoopTasks.MainLoop.RunLoopTasks: the number of tasks does not change while it runs. What a task program does is not modelled.
- MonitorCounters.Monitor.Update: requires an identifier with a table entry, because the code would write outside its tables otherwise. The optical power in decibels is floating point and is dropped.
- SpiConfig.SendCfg: the receive wait always ends with a word; delays between the transfers are dropped.
- SpiConfig.SendFt3Cfg: slots 0 to 3, which is what the tables hold.
- EccMapping.TranslateIsMoved: addresses below 0x80000000 are outside the DDR range and not stated.
- Boot and image loading, PCIe and SERDES set-up, time synchronisation, the DMA variant of the SPI link, `pcie_udma.c`, RTC, LEDs, UART and the self-tests: register programming, finite tables, or code whose callees are not shown.

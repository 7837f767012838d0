# Verified model of the inverter and UPS gateway

The daemon polls an inverter and a UPS over a shared RS-485 bus or over Modbus TCP, keeps their registers in
one shared pool, queues operator writes, and publishes to local subscribers. This project models the parts of
it in which correctness is a matter of algorithms and protocols, and proves what they promise. Each module is
one file:

| module | what it models |
|---|---|
| Words, Modbus | 16-bit words, their bytes and binary digits; numbers of the protocol |
| Crc16, CrcErrors | the Modbus CRC-16, proved equal to a bit-serial register, and what damage it detects |
| RtuClient | RTU requests and the judgement of replies |
| BusCoordinator, BusThreads | the per-path bus lock, and all interleavings of the unit threads that use it |
| UnitBus | the bus as the code of one unit uses it: each acquire, release and transaction where the code makes it |
| CommandQueue | the ring of pending writes with merging in place, and its drain with requests coming in |
| RegisterMap | pool, binary search, copy into the pool, registry of profiles |
| ProfileScan, ScanGuarantees | the loop that cuts a table into reads, and what a scan guarantees against any device |
| UnitLifecycle | connect, init, reboot, drain, scan, comm loss and reconnect of one unit |
| PoolOwnership | any number of units on one pool, write by write, and the daemon's own two tables |
| BusSilence, SharedPort, PortRuns | the shared serial port: silence between units, references, runs |
| LineReassembly, CmosMessage, Subscribers | the line protocol from publisher to callback |
| TcpAdu, TcpStream, TcpTransactions | Modbus TCP frames, their reassembly, and the matching of ids |
| AlarmEngine | the alarm engine as a transducer of sample histories |
| DutyConversion | duty and frequency with their rounding |

Code that updates objects, arrays or loop variables is modelled by classes and methods with loops. Each is
proved against functions on values, and the main theorems are about those functions: for all inputs, all runs
and all interleavings. The outside world - device, socket, clock, recv sizes, spurious wake-ups - is a value or
an event that the theorems quantify over. Integers are unbounded except where a width matters, and then the
width is written out. C's division, which truncates toward zero, is written out where it meets a negative number.

The bus exclusion reaches from the code to the interleavings. Unit code may exchange only while it holds its
path, and each method states exactly what it adds to the trace of its thread. Those additions are blocks, and
BusThreads shows for threads made of blocks that no interleaving lets anybody in between.

## Results that differ from what one might expect

These follow from the code as it is; each has a lemma.

- The silence of 30 ms between units can be as short as 29 ms and 1 ns, when the nanosecond field borrows
  (`BusSilence.GapOf30Exactly`, `BusSilence.BorrowShortensTheGap`).
- A unit stopped while it polls leaves CONNECTED in the pool for ever; only one stopped while down says
  DISCONNECTED (`UnitLifecycle.StopSaysDisconnectedExactly`, `UnitLifecycle.StoppedWhileConnected`).
- Connecting an RTU context that is already attached loses a reference (`PortRuns.ConnectAccountsExactly`,
  `PortRuns.ConnectedTwice`);
  the unit threads never do so (`PortRuns.PortAccounting`).
- Merging is wrong exactly if block writes over a mergeable address are queued too (`CommandQueue.MergeExactly`,
  `CommandQueue.HarmIsPossible`, `CommandQueue.BlockWriteBreaksMerge`); the daemon queues single writes only.
- After one timeout on a TCP connection with a server that answers everything, no reply matches before the ids
  have gone all the way round, 65535 requests later (`TcpTransactions.MatchesExactlyWithoutLag`,
  `TcpTransactions.LateReply`); five failures in a row make the unit reconnect.
- The TCP read does not compare the length of the frame with its byte count
  (`TcpAdu.ValuesComeFromFrameExactly`, `TcpAdu.ShortFrameIsAccepted`).
- The TCP read reports success without registers if an exception bit is followed by a zero where the reply
  should have its function code (`TcpAdu.SuccessExactly`): on an exception reply numbered 0
  (`TcpStream.ExceptionZeroSucceeds`), and, because the length is looked at later, on a frame too short to hold
  these bytes when the buffer behind it happens to (`TcpAdu.CodeComesFromFrameExactly`,
  `TcpStream.SevenBytesSucceed`). A scan then stores what its buffer held before
  (`ScanGuarantees.RowOutcomeOnDevice`). Writes take an exception numbered 0 for success too
  (`TcpAdu.ValidateWrite`).
- The FC16 builder of the library checks its room correctly for at most 127 registers (`TcpAdu.FitsExactly`).
- A published value with a blank, carriage return or newline, or in a message of more than 895 characters, does
  not reach a key-filtered callback whole; every other one does (`CmosMessage.ValueArrivesExactly`, which also
  has the one exception, an empty value).
- With limits 20000 or more apart, a frequency can come back from its duty higher than it was
  (`DutyConversion.FrequencyThereAndBackExactly`).
- A ninth serial path is not protected by the bus coordinator at all (`BusThreads.NinthPathIsUnprotected`).

## Model

| member | source | states |
|---|---|---|
| `Crc16.ComputeCrc16` | lib/modbus/modbus_rtu_client.c:242-259 | The two nested loops compute, for every length, the function whose residue, linearity and error detection are proved below |
| `Crc16.StartAndPolynomial` | lib/modbus/modbus_rtu_client.c:242-259 | Start value and polynomial by two frames: the CRC of FF FF is 0, and that of FF FF 80 is 0xA001 |
| `Crc16.AppendCrc` | lib/modbus/modbus_rtu_client.c:439-444 | The buffer ends up as the frame followed by the CRC of exactly that frame, low byte first |
| `Crc16.VerifyResponseCrc` | lib/modbus/modbus_rtu_client.c:453-461 | Accepts exactly the buffers of at least two bytes whose last two bytes are the CRC of the rest |
| `Crc16.BytesAreSerial` | lib/modbus/modbus_rtu_client.c:242-259 | The byte-wise loop equals a one-bit-at-a-time shift register clocked over the wire order (least significant bit of each byte first), for every start value and frame |
| `Crc16.SerialLinear` | lib/modbus/modbus_rtu_client.c:242-259 | Superposition: the register over the XOR of two bit streams is the XOR of the registers |
| `Crc16.ZeroedExactlyByItself` | lib/modbus/modbus_rtu_client.c:242-259 | Sixteen or fewer input bits take a register to zero exactly when they equal its content |
| `Crc16.ResidueIsZero` | lib/modbus/modbus_rtu_client.c:453-461 | A buffer of two or more bytes passes verification if and only if the CRC over all of it, CRC bytes included, is 0 |
| `Crc16.AppendedCrcPasses` | lib/modbus/modbus_rtu_client.c:439-461 | What append_crc makes always passes verification |
| `Crc16.PassesOnlyWithItsCrc` | lib/modbus/modbus_rtu_client.c:453-461 | A buffer passes if and only if it is its own body with the CRC appended |
| `CrcErrors.ErrorActsAlone` | lib/modbus/modbus_rtu_client.c:242-259 | Whether a damaged frame still passes depends on the error pattern and not on the frame |
| `CrcErrors.BurstDetected` | lib/modbus/modbus_rtu_client.c:453-461 | Any change confined to 16 consecutive wire bits, anywhere in a frame of any length, CRC bytes included, makes it fail |
| `CrcErrors.BurstBoundIsTight` | lib/modbus/modbus_rtu_client.c:453-461 | Sixteen is the exact bound: the 17-bit pattern of the polynomial is never detected, in any frame, at any position |
| `CrcErrors.OddErrorsDetected` | lib/modbus/modbus_rtu_client.c:453-461 | Every odd number of flipped bits, wherever they are, makes the frame fail |
| `RtuClient.BuildRequest` | lib/modbus/modbus_rtu_client.c:649-657 | The bytes put into the ADU buffer for FC03, FC06 and FC16 are the frame that reads back as the request |
| `RtuClient.BodyBytes` | lib/modbus/modbus_rtu_client.c:649-752 | The request bodies byte by byte, for all units, addresses and values |
| `RtuClient.RequestRoundTrip` | lib/modbus/modbus_rtu_client.c:649-765 | A reader written from the frame layouts gets back unit, function, address and all values of every sendable request |
| `RtuClient.ReadHoldingRegisters` | lib/modbus/modbus_rtu_client.c:632-679 | Returns OK if and only if the line gave exactly the specified reply with the values left in the output; every other code is told: -1 and -2 for arguments and a closed port, -3 for a short write or a read error, -4 for silence, -6 for a CRC that fails, the number of an exception, -5 for any other frame; on any error the output is untouched |
| `RtuClient.AcceptedFrameIsReply` | lib/modbus/modbus_rtu_client.c:538-548 | Header, values and CRC fix every byte: no other frame can be accepted with these values |
| `RtuClient.ReadReplyInjective` | lib/modbus/modbus_rtu_client.c:661-675 | Two different sets of registers never share a reply frame |
| `RtuClient.DamageIsRefused` | lib/modbus/modbus_rtu_client.c:538-539 | A frame damaged by one burst of up to 16 bits or by an odd number of bits is refused with the CRC error, and not parsed as a request |
| `RtuClient.FinishWrite` | lib/modbus/modbus_rtu_client.c:711-719 | The end of both write calls: success exactly when CRC, unit id and function code match; the same table of codes for everything else, an exception numbered 0 being a frame error |
| `BusCoordinator.Coordinator.FindSlot` | src/bus_coord.c:137-147 | Finds the first allocated slot of the path, or none |
| `BusCoordinator.Coordinator.AllocSlot` | src/bus_coord.c:153-168 | Stamps the first free slot with the stored path, or none; all other slots are unchanged |
| `BusCoordinator.Coordinator.Acquire` | src/bus_coord.c:52-83 | The code up to its first wait computes exactly the table and verdict of the specification the interleavings are built from |
| `BusCoordinator.Coordinator.Recheck` | src/bus_coord.c:72-83 | After a wake-up the thread waits again or enters, exactly as specified |
| `BusCoordinator.Coordinator.ReleaseBus` | src/bus_coord.c:89-120 | Release by the owner lowers the depth and wakes sleepers when it reaches 0; any other release changes nothing |
| `BusCoordinator.FindUnique` | src/bus_coord.c:137-147 | In a well-formed table a path names at most one slot |
| `BusCoordinator.OneHolder` | src/bus_coord.c:72-83 | Two threads never hold one path at the same time |
| `BusCoordinator.UncoordinatedExactly` | src/bus_coord.c:58-70 | A first acquire goes unprotected if and only if the path is empty, or the table is full of other paths |
| `BusThreads.AcquireIsTryAcquire` | src/bus_coord.c:52-83 | One step of an acquiring thread in the interleaving model is the code of bus_coord_acquire |
| `BusThreads.AlwaysASlot` | src/bus_coord.c:153-168 | With at most 8 distinct paths of at most 255 characters every thread gets a slot |
| `BusThreads.StepKeeps` | src/bus_coord.c:52-120 | Every step of every thread, spurious wake-ups included, keeps the invariant and moves each thread by at most one of its own operations |
| `BusThreads.RunInvariant` | src/bus_coord.c:52-120 | So the invariant holds in every state of every interleaving |
| `BusThreads.TransactsAlone` | src/bus_coord.c:72-83 | A thread that transacts on a path is the one that holds it |
| `BusThreads.ScriptAdvances` | src/bus_coord.c:52-120 | Over any stretch of any run a thread performs a prefix of its own code and holds exactly the depth that prefix leaves |
| `BusThreads.BlockUninterrupted` | src/inverter_module.c:360-414 | From an outermost acquire to its matching release every transaction on the path is that thread's own, and the depth on exit equals the depth on entry |
| `UnitBus.Bus.Take` | src/bus_coord.c:52-83 | An acquire that has returned: one level deeper, recorded in the trace of the thread |
| `UnitBus.Bus.Give` | src/bus_coord.c:89-120 | A release of something held: one level up, recorded |
| `UnitBus.Bus.Exchange` | lib/modbus/modbus_rtu_client.c:498-578 | A transaction, which the code may only make while it holds the path; the trace stays one that BusThreads calls disciplined |
| `UnitBus.UnitCodeIsBlocks` | src/inverter_module.c:309-414 | The traces proved for the scan and the bursts of writes below, for any segments and any number, are blocks in the sense of BlockUninterrupted |
| `UnitBus.WireUse` | lib/modbus/modbus_rtu_client.c:498-578 | On RTU a scan uses the wire once for each read of at most 125 registers that it makes, a burst once an exchange; on TCP neither uses the bus |
| `UnitBus.ScanUninterrupted` | src/inverter_module.c:360-414 | While a thread is inside the trace of a scan, in any interleaving, nobody else transacts on its path |
| `BusThreads.BlocksAreDisciplined` | src/inverter_module.c:899-927 | Code made of blocks transacts only under the lock and gives everything back |
| `BusThreads.NoLostWakeUp` | src/bus_coord.c:72-75 | In every reachable state a sleeper's slot has depth above 0 and another owner |
| `BusThreads.SomeoneGoes` | src/bus_coord.c:72-117 | No deadlock: in every reachable unfinished state some thread can perform its next operation |
| `BusThreads.CanAlwaysFinish` | src/bus_coord.c:72-117 | From every reachable state there is a schedule in which all threads finish |
| `BusThreads.NinthPathIsUnprotected` | src/bus_coord.c:63-70 | The bound of 8 paths is needed: from an empty table, ten threads on nine paths get to a state in which two threads transact on the ninth at once |
| `CommandQueue.Ring.FindPending` | src/inverter_module.c:505-519 | The scan from the head finds the first pending single write to the address and its place in the ring |
| `CommandQueue.Ring.Push` | src/inverter_module.c:495-537 | Accepts exactly the commands of 1 to 123 values for which fewer than 16 are pending, or which are single values for a mergeable address that has one waiting; then the command stands in place of the oldest such value, or at the end, and nothing else changes; a refused command changes nothing |
| `CommandQueue.Ring.Pop` | src/inverter_module.c:545-560 | Takes the oldest command; the rest of the sequence is unchanged |
| `CommandQueue.DecidedExactly` | src/inverter_module.c:495-537 | The decision the run theorems speak of is just that |
| `CommandQueue.RefusedExactly` | src/inverter_module.c:495-537 | In every run a request is accepted if and only if it is acceptable so; in particular no well-formed request is refused while fewer than sixteen wait |
| `CommandQueue.DutyNeverRefused` | src/inverter_cmos_bridge.c:239-278 | However many duty commands come in and however slowly they are served, at most two writes wait and none is ever refused |
| `CommandQueue.OthersQueueUp` | src/ups_module.c:583-598 | Addresses other than 0x2000 and 0x2001, and on the UPS all addresses, get their own place in the queue |
| `CommandQueue.WriteAt` | src/inverter_module.c:790-866 | A command writes its values to consecutive registers and nothing else; FC06 with any count but one writes nothing |
| `CommandQueue.ReplayAt` | src/inverter_module.c:318-322 | After replaying commands each register holds the value of the last one to cover it, or its old value |
| `CommandQueue.MergeExactly` | src/inverter_module.c:505-519 | Merging into position i gives the same device as appending if and only if nothing later writes the address, or what it writes there last is the same value |
| `CommandQueue.OutcomeFrom` | src/inverter_module.c:495-560 | From any moment on, whatever was lost before: over any stretch of answered writes and harmless requests, draining what is pending at its end leaves the device as draining what was pending at its start and then replaying what was accepted since |
| `CommandQueue.MergePreservesOutcome` | src/inverter_module.c:495-560 | In every run of harmless requests and answered writes, draining what is pending leaves the device as replaying all accepted requests in order |
| `CommandQueue.DrainedDevice` | src/inverter_module.c:309-326 | When everything has been served each register holds the last value accepted for it |
| `CommandQueue.DrainPreservesOutcome` | src/inverter_module.c:309-326 | At any point of any history of harmless requests, writes that failed included: a drain whose own writes are answered, with requests coming in all the while, leaves the device as writing what was pending and then replaying everything accepted since |
| `CommandQueue.DrainIsRun` | src/inverter_module.c:314-322 | The turns of a drain are a run of the queue: serve one, let requests come in, until none is left |
| `CommandQueue.HarmIsPossible` | src/inverter_module.c:505-519 | The guard is exact: for every accepted block write over a mergeable address there is a run of it and single writes after which draining gives another device than replaying |
| `CommandQueue.AtMostOnePending` | src/inverter_module.c:505-519 | At most one single write per mergeable address is pending, and never more than 16 commands |
| `CommandQueue.Accounted` | src/inverter_module.c:495-560 | Accepted requests = served + pending + merged away |
| `CommandQueue.MergeIntoFullRing` | src/inverter_module.c:505-523 | A full ring accepts a write to an address that has one waiting if and only if the address is mergeable |
| `CommandQueue.PlainFifo` | src/ups_module.c:557-622 | Without merging, served followed by pending is exactly the accepted sequence |
| `CommandQueue.UnmergeableKeepOrder` | src/inverter_module.c:495-560 | With merging, commands that cannot be merged still come out in the order of acceptance |
| `CommandQueue.BlockWriteBreaksMerge` | src/inverter_module.c:505-519 | Concrete queue in which a block write over a mergeable address makes merging lose the newest value |
| `RegisterMap.FindSlot` | lib/device_map/device_register_map.c:119-146 | Every hit is right, and on a sorted table the binary search finds exactly what a linear search finds |
| `RegisterMap.Pool.Read` | lib/device_map/device_register_map.c:190-201 | Gives the cell, or nothing for the one address outside the pool |
| `RegisterMap.Pool.Write` | lib/device_map/device_register_map.c:203-214 | Changes one cell; the one address outside the pool is refused and nothing changes |
| `RegisterMap.Pool.ReadToPool` | lib/device_map/device_register_map.c:147-186 | The pool becomes the old pool with each read value stored at the slot of its register, unmapped registers skipped |
| `RegisterMap.StoredIsRefreshed` | lib/device_map/device_register_map.c:158-186 | Storing the values of consecutive registers one by one is the naive refresh of their rows |
| `RegisterMap.RefreshedSlots` | lib/device_map/device_register_map.c:158-186 | After a refresh each row's slot holds its register and no other slot has moved |
| `RegisterMap.Registry.Register` | lib/device_map/device_register_map.c:73-115 | Accepts a table if and only if it shares no pool address with an accepted one and fewer than 32 are accepted; keeps the accepted tables pairwise disjoint |
| `RegisterMap.SecondUseRefused` | lib/device_map/device_register_map.c:79-103 | A non-empty profile is never accepted twice |
| `ProfileScan.SegmentsCover` | src/inverter_module.c:362-410 | For any table the loop's segments cover every row exactly once, each consecutive, at most max(1, read_chunk) long and not extendable |
| `ProfileScan.CoveringUnique` | src/inverter_module.c:362-410 | There is only one such covering, so the segments are determined by table and chunk size |
| `ProfileScan.Poller.ReadDevice` | src/inverter_module.c:763-779 | Succeeds if and only if at most 125 registers are asked for and the reply fills the buffer, or on TCP reports success without; a filled buffer holds the registers, any other is unchanged; one exchange under its own acquire and release on RTU, none on the bus on TCP |
| `ProfileScan.Poller.ReadSegment` | src/inverter_module.c:374-405 | One segment: on success the rows are refreshed and the count reset, on failure the count rises, and at 5 the whole profile is marked; the bus sees exactly one read |
| `ProfileScan.Poller.MarkLost` | src/inverter_module.c:393-398 | Every slot of the profile becomes 0xFFFF and nothing else changes |
| `ProfileScan.Poller.ReadProfile` | src/inverter_module.c:344-415 | Against any device, one whose reads succeed without filling the buffer included: the loop ends with the pool, count and result of scanning the covering segment by segment; it appends to the trace exactly one acquire, the reads the scan made, and one release, and leaves the depth as it was on every exit |
| `ProfileScan.BufferHolds` | src/inverter_module.c:353-374 | The buffer holds, position by position, what the last read of this scan that filled it put there, or 0 |
| `ScanGuarantees.FullScanIsNaiveRefresh` | src/inverter_module.c:362-410 | With every read answered and registers standing still, the chunked scan is the naive refresh of the table |
| `ScanGuarantees.FullScanSlots` | src/inverter_module.c:344-415 | Then each row's slot holds its register and no other slot of the pool has moved |
| `ScanGuarantees.OverlongSegmentFails` | lib/modbus/modbus_rtu_client.c:637-639 | A profile cut into runs of more than 125 registers is never fully scanned |
| `ScanGuarantees.ScanTouchesItsRows` | src/inverter_module.c:380-405 | Whatever the device does, a scan writes only slots of its own profile |
| `ScanGuarantees.RowOutcome` | src/inverter_module.c:380-405 | Every row after every scan: 0xFFFF if the device was declared lost, its register if its segment was read and answered, otherwise what it had, also when an untracked scan broke off |
| `ScanGuarantees.RowOutcomeOnDevice` | src/inverter_module.c:344-415 | Every row after a scan by any device over any transport: 0xFFFF if the device was declared lost; what it had if its read was not made, asked for more than 125 registers, or failed; its register if the read filled the buffer; and for an empty success what it had on RTU, and on TCP what earlier reads of the scan left in the buffer |
| `ScanGuarantees.HeardOnDevice` | src/inverter_module.c:374-405 | Which reads of a scan succeed: those of at most 125 registers that fill the buffer, and on TCP those that report success without |
| `ScanGuarantees.FilledScan` | src/inverter_module.c:344-415 | A device that fills every read with registers standing still: over RTU and over TCP, tracked or not, the scan succeeds, every row holds its register, no other slot has moved |
| `ScanGuarantees.SilentScan` | src/inverter_module.c:388-402 | A device that answers nothing: nothing is stored, and after five failures in a row, earlier scans included, every row reads 0xFFFF |
| `ScanGuarantees.UnfilledBufferExactly` | src/inverter_module.c:374-405 | If a read reports success without filling the buffer, the pool shows the registers if and only if the buffer happened to hold them |
| `ScanGuarantees.CountIsTrailingFailures` | src/inverter_module.c:388-402 | The failure count is the number of tracked reads failed since the last one that succeeded |
| `ScanGuarantees.FailsExactlyAtThreshold` | src/inverter_module.c:388-398 | A tracked scan fails if and only if the count reaches 5, and then the whole profile reads 0xFFFF |
| `ScanGuarantees.UntrackedScan` | src/ups_module.c:443-456 | An untracked scan never touches the count and succeeds if and only if every segment is answered |
| `UnitLifecycle.Unit.SetState` | src/inverter_module.c:662-670 | The state and its mirror in the pool change together |
| `UnitLifecycle.Unit.Connect` | src/inverter_module.c:677-740 | Succeeds if and only if the transport opens and, on RTU with a non-empty table, the probe is answered; the bus sees exactly the probe and the setup writes under one acquire |
| `UnitLifecycle.Unit.InitCallback` | src/inverter_module.c:271-289 | On success count 0 and the state 1 in both places, otherwise nothing changes; acts as the Connect step |
| `UnitLifecycle.Unit.ErrorCallback` | src/inverter_module.c:423-443 | Count 0 and the state 0 in both places, nothing else; acts as the Error step |
| `UnitLifecycle.Unit.InitWriteSequence` | src/inverter_module.c:566-607 | The flag ends at 1 if both writes were answered and at 0 otherwise; the device as InitWritesAt says; the bus sees exactly the one or two writes made, under one acquire |
| `UnitLifecycle.InitWritesAt` | src/inverter_module.c:568-597 | Register by register: frequency 0 if the first write is answered, 0x1001 in the operation command if both are, nothing else |
| `UnitLifecycle.Unit.InitSequence` | src/ups_module.c:443-456 | The flag is cleared, an untracked scan is made, and the flag is set if and only if it read everything; the bus sees exactly that scan |
| `UnitLifecycle.InitScanFlag` | src/ups_module.c:443-456 | On a device: the flag is 1 if and only if every read asked for at most 125 registers and succeeded; count and phase are unchanged |
| `UnitLifecycle.Unit.RebootCommand` | src/ups_module.c:931-1014 | Succeeds if and only if the write and the reading back were answered and the bit is set; one exchange under its own acquire for each |
| `UnitLifecycle.Unit.RebootSequence` | src/ups_module.c:462-479 | Succeeds if and only if all four exchanges are answered and the two values read back have bits 13 and 15; the device as RebootWrites says; exactly the exchanges made, each under its own acquire |
| `UnitLifecycle.RebootWrites` | src/ups_module.c:931-1014 | Register by register: the restart words at 0x03AE and 0x03AF, the shutdown word at 0x03AB only after a verified restart, nothing else |
| `UnitLifecycle.Unit.DrainLoop` | src/inverter_module.c:314-322 | Turn by turn: each popped command is written or dropped, requests come in, until nothing is pending; one exchange per command that goes out |
| `UnitLifecycle.Unit.Drain` | src/inverter_module.c:308-326 | The queue ends empty, the device as the run of the drain leaves it with requests coming in meanwhile, and the bus sees one exchange per command sent, all under one acquire |
| `UnitLifecycle.Unit.ProcessCallback` | src/inverter_module.c:296-336 | Init sequence and reboot sequence if requested, drain, tracked scan; fails exactly when the scan step leads to comm loss; the trace grows by exactly the operations of the four |
| `UnitLifecycle.DrainInHistory` | src/inverter_module.c:308-326 | The drain of a unit, at any point of such a history, leaves its device so |
| `UnitLifecycle.ScanIsWhole` | src/inverter_module.c:360-414 | What a scan adds to the trace is nothing or one block |
| `UnitLifecycle.DrainIsWhole` | src/inverter_module.c:309-326 | What a drain adds to the trace is nothing or one block |
| `UnitLifecycle.InitIsWhole` | src/inverter_module.c:581-605 | What an init sequence adds to the trace is nothing or one block |
| `UnitLifecycle.ConnectIsWhole` | src/inverter_module.c:712-737 | What a connect adds to the trace is nothing or one block |
| `UnitLifecycle.SingleBlocks` | src/ups_module.c:462-479 | What a reboot sequence adds to the trace is one block per exchange |
| `UnitLifecycle.CallbacksSend` | src/inverter_module.c:677-740 | How often the wire is used: a connect for its probe and the inverter's setup writes, a reboot for one to four exchanges, a drain once for each command |
| `UnitLifecycle.StepKeeps` | src/inverter_module.c:899-927 | Every step of a unit thread, and anything its neighbours do to the rest of the pool, keeps the unit's invariant |
| `UnitLifecycle.LifecycleInvariant` | src/inverter_module.c:899-927 | In every run: the count is the tracked failures since the last success or reset and below 5 while polling, a failed scan means 5 and all slots 0xFFFF, the state equals its mirror, and a unit that says DISCONNECTED shows all initial values or all 0xFFFF |
| `UnitLifecycle.HealthyPoll` | src/inverter_module.c:296-336 | A poll of a device that fills every read shows its registers, moves no other slot, and keeps the unit up with count 0 |
| `UnitLifecycle.SilentPoll` | src/inverter_module.c:296-336 | A poll of a device that answers nothing adds its reads to the count; at five the unit is lost and its rows read 0xFFFF |
| `UnitLifecycle.LostWithinFive` | src/inverter_module.c:899-927 | In no run is a unit still up after five such polls in a row |
| `UnitLifecycle.NoStaleValuesWhenDown` | src/inverter_module.c:423-434 | Between the steps of a unit, also after a stop, DISCONNECTED in the pool means no value of an earlier connection |
| `UnitLifecycle.StopSaysDisconnectedExactly` | src/inverter_module.c:907-925 | After a stop the pool says DISCONNECTED if and only if the unit was down before it; stopped while polling it says CONNECTED for ever |
| `UnitLifecycle.StoppedWhileConnected` | src/inverter_module.c:907-925 | A run that ends so: connect, stop, and the pool says CONNECTED |
| `PoolOwnership.DaemonProfiles` | devices/inverter/inverter_map.c:10-49 | The two profiles are sorted, use distinct slots inside the pool, keep flag and status out of every table, and own nothing in common |
| `PoolOwnership.InverterCount` | devices/inverter/inverter_map.c:10-49 | The inverter table has 28 rows |
| `PoolOwnership.UpsCount` | devices/ups/ups_map.c:10-61 | The UPS table has 49 rows |
| `PoolOwnership.NamedInverterRows` | devices/inverter/inverter_map.c:10-49 | Registers the inverter's bridge goes by are at their places in the table |
| `PoolOwnership.NamedUpsRows` | devices/ups/ups_map.c:10-61 | So are battery capacity and mode of the UPS |
| `PoolOwnership.DaemonReads` | devices/ups/ups_map.c:10-67 | A scan of the inverter is ten reads, one of the UPS twelve: by the uniqueness of the covering, one for each run of device addresses |
| `PoolOwnership.StepWritesAre` | lib/device_map/device_register_map.c:147-214 | Every step of a unit - scan, marking, flag, status - is a list of single register writes that add up to it |
| `PoolOwnership.StepAtHome` | src/inverter_module.c:380-405 | All of them go to slots of the unit itself |
| `PoolOwnership.InterleavedIsSeparate` | lib/device_map/device_register_map.c:203-214 | However finely single register writes of several units interleave, each unit's slots end up as if it had been alone |
| `PoolOwnership.InterleavedSteps` | lib/device_map/device_register_map.c:203-214 | So for scans, marking and all other steps: with their single writes interleaved in any way, each unit leaves in its slots what its step leaves alone |
| `PoolOwnership.UnitsApart` | src/inverter_module.c:113-122 | Registration of tables keeps whole units apart, flags and statuses included |
| `PoolOwnership.HistoryInvariant` | src/inverter_module.c:101-168 | In every history of launches, beginnings of steps and single register writes of any number of units, the lifecycle invariant holds for all of them at once, each seen with its outstanding writes |
| `PoolOwnership.SettledUnitIsGood` | src/inverter_module.c:380-405 | Between its steps a unit shows in the pool itself exactly what its lifecycle promises, however the single writes of the others fell in between |
| `PoolOwnership.ReaderSeesNothingStale` | src/inverter_module.c:423-434 | At every moment of every history of single writes, in the middle of scans, markings and connects: a pool reader that sees DISCONNECTED sees no value of an earlier connection |
| `PoolOwnership.NobodyTouchesAnother` | src/inverter_module.c:393-405 | No single write of a unit and no launch changes a slot of another unit, flag and status included |
| `PoolOwnership.UnownedNeverChanges` | lib/device_map/device_register_map.c:203-214 | A slot no profile owns keeps its value in every history |
| `PoolOwnership.OneUnitPerProfile` | src/inverter_module.c:113-122 | Two running units never share a profile |
| `PoolOwnership.DaemonCatalogSound` | devices/ups/ups_map.c:63-71 | The daemon's own two profiles meet the conditions of these theorems |
| `PoolOwnership.TwoStart` | src/inverter_module.c:101-136 | Two profiles with nothing in common are both started, each with its status at 0, and neither a second time |
| `PoolOwnership.BothUnitsStart` | src/main.c:91-99 | So the daemon's inverter and UPS units both start |
| `SharedPort.Ports.AcquireBus` | lib/modbus/modbus_rtu_client.c:102-129 | The first record that carries the path, else the first unused one, which then carries it; none, and no change, only if all are in use under other names |
| `SharedPort.Ports.AttachPort` | lib/modbus/modbus_rtu_client.c:138-182 | First reference opens the device, later ones need the same baud rate; a failure changes nothing |
| `SharedPort.Ports.DetachPort` | lib/modbus/modbus_rtu_client.c:189-208 | Gives one reference back and closes the port with the last |
| `SharedPort.Ports.Handoff` | lib/modbus/modbus_rtu_client.c:216-231 | No silence for the first transaction on a port, for the unit that transacted last, and when the clock shows a negative time or at least 30 ms since; otherwise what completes the elapsed milliseconds to exactly 30 |
| `SharedPort.Ports.Finished` | lib/modbus/modbus_rtu_client.c:571-576 | Afterwards the record remembers this unit and this moment, and nothing else has changed |
| `SharedPort.Client.Transaction` | lib/modbus/modbus_rtu_client.c:507-576 | Silence first, of that length, remembering last: together the Transact step of the runs |
| `SharedPort.Client.Connect` | lib/modbus/modbus_rtu_client.c:583-613 | Succeeds if and only if the path has a record or one is free, and its port is open at this baud rate or the device can be opened; records and context end up as specified, whatever the context held before |
| `SharedPort.ConnectedExactly` | lib/modbus/modbus_rtu_client.c:583-613 | A connect that succeeds adds one reference to one record: the first opens the device, later ones share its descriptor; no other record changes |
| `SharedPort.TwoPathsThreeUnits` | lib/modbus/modbus_rtu_client.c:102-182 | Two devices on two paths and a third unit beside the first: two records, two descriptors, two references on the first; another baud rate is refused |
| `SharedPort.Client.Disconnect` | lib/modbus/modbus_rtu_client.c:615-630 | Detaches at most once; a repeated disconnect changes nothing |
| `PortRuns.ConnectAccountsExactly` | lib/modbus/modbus_rtu_client.c:590-592 | A connect keeps references equal to attached contexts if and only if the context held no descriptor before |
| `PortRuns.ConnectedTwice` | lib/modbus/modbus_rtu_client.c:590-592 | One context connected twice: two references, one holder, and a disconnect leaves the port open |
| `PortRuns.DisconnectKeeps` | lib/modbus/modbus_rtu_client.c:615-630 | A disconnect, also a repeated one, keeps the accounting |
| `PortRuns.RunInvariant` | src/inverter_module.c:899-927 | The accounting holds in every state of every run of connecting, failing, reconnecting and stopping threads, finding the record and attaching to it being separate steps |
| `PortRuns.PortAccounting` | lib/modbus/modbus_rtu_client.c:138-208 | In every run the reference count is the number of attached contexts, and the port is open if and only if there is one |
| `PortRuns.OneDescriptorPerPath` | lib/modbus/modbus_rtu_client.c:138-182 | Two connected units share a descriptor if and only if they share the path, and then the baud rate |
| `PortRuns.AllOverAllClosed` | lib/modbus/modbus_rtu_client.c:189-208 | When all threads have ended every port is closed |
| `PortRuns.UnitsKeepSilence` | lib/modbus/modbus_rtu_client.c:507-576 | In every run consecutive transactions of different units on an open port are more than 29 ms apart, and 30 ms if no fraction was lost to a borrow |
| `PortRuns.AloneNeverDelayed` | lib/modbus/modbus_rtu_client.c:216-220 | In every run a unit that has its port to itself is never kept waiting |
| `PortRuns.DelayedByTheLast` | lib/modbus/modbus_rtu_client.c:507-576 | In every run the delay before a transaction is the one that follows from the transaction before it on the port |
| `BusSilence.GapAbove29` | lib/modbus/modbus_rtu_client.c:216-231 | With a monotonic clock the earliest start is more than 29 ms after the last transaction |
| `BusSilence.GapOf30Exactly` | lib/modbus/modbus_rtu_client.c:225-230 | The earliest start is 30 ms later if and only if nothing was borrowed, or no fraction was lost, or 30 ms had passed anyway |
| `BusSilence.BorrowShortensTheGap` | lib/modbus/modbus_rtu_client.c:225-226 | Concrete readings that give 29 ms and 1 ns |
| `LineReassembly.SplitMeaning` | lib/cmos/cmos_sub.c:500-510 | The reference split loses nothing and cuts exactly after newlines |
| `LineReassembly.SplitOfLines` | lib/cmos/cmos_sub.c:500-510 | It is the only such cut |
| `LineReassembly.Connection.Receive` | lib/cmos/cmos_sub.c:489-518 | One receive event hands over the complete lines of buffer and new bytes, each cut to 1023 bytes, and keeps the rest, or nothing of it when it fills the buffer |
| `LineReassembly.Connection.Shift` | lib/cmos/cmos_sub.c:514-517 | Drops the first bytes of the buffer and keeps the others in order |
| `LineReassembly.ReceivedIsFed` | lib/cmos/cmos_sub.c:489-518 | Receiving a piece is receiving its bytes one after the other |
| `LineReassembly.PiecesDoNotMatter` | lib/cmos/cmos_sub.c:489-518 | For every stream and every way of cutting it that recv allows, the lines handed over are the same, and there is always room for the next recv |
| `LineReassembly.LinesComeOut` | lib/cmos/cmos_sub.c:489-518 | One line per newline of the stream, in order, each changed if and only if it is longer than 1023 bytes |
| `LineReassembly.SeenExactly` | lib/cmos/cmos_sub.c:489-518 | What is handed over for a line of any length: whole buffers of 2047 bytes at its start are thrown away, the rest, with its newline, is cut to 1023 |
| `LineReassembly.ShortLinesExactly` | lib/cmos/cmos_sub.c:489-518 | The handler sees exactly the newline split of the stream if and only if no line exceeds 1023 bytes |
| `LineReassembly.NothingDiscarded` | lib/cmos/cmos_sub.c:514-518 | With lines of at most 1023 bytes nothing is ever thrown away: after every recv the buffer holds exactly the unfinished line, less than half full |
| `CmosMessage.PrintData` | lib/cmos/cmos_pub.c:148-166 | Capping at every snprintf is capping the whole text once, at 895 characters |
| `CmosMessage.DataLooks` | lib/cmos/cmos_pub.c:148-166 | The data as it goes out, with all four fields, with a key and a value, and with a bare value |
| `CmosMessage.Print` | lib/cmos/cmos_pub.c:145-168 | The published line is MSG, topic and data; it has at most 964 bytes and keeps its newline |
| `CmosMessage.HandleLine` | lib/cmos/cmos_sub.c:287-334 | The in-place tokenising makes exactly the call of the specification |
| `CmosMessage.ParsedIsNoted` | lib/cmos/cmos_sub.c:311-320 | The token loop recovers the words of the data |
| `CmosMessage.PublishedIsHandled` | lib/cmos/cmos_sub.c:287-334 | Round trip: for every proper message and subscription the callback runs if and only if topic, state, type and key match, with exactly the published value, or the whole data when no key was asked for |
| `CmosMessage.EndToEnd` | lib/cmos/cmos_sub.c:489-518 | A stream of any number of published messages, received in any pieces, leads to exactly the expected call for each, in order |
| `CmosMessage.SubscriptionIsServed` | lib/cmos/cmos_sub.c:383-403 | Stated for subscriptions as they are made: with names of at most 63 characters the callback runs if and only if every filter given equals its field |
| `CmosMessage.LongFilterIsCut` | lib/cmos/cmos_sub.c:391-401 | A longer filter accepts exactly its first 63 characters |
| `CmosMessage.UncleanValueNeverArrives` | lib/cmos/cmos_sub.c:287-334 | No line whatever makes a key-filtered callback see a value with a blank, a line end or a NUL |
| `CmosMessage.ParsedCut` | lib/cmos/cmos_sub.c:311-320 | A text cut anywhere parses as its words, the last one as far as it goes |
| `CmosMessage.ValueArrivesExactly` | lib/cmos/cmos_sub.c:287-334 | With everything else in order a published value reaches a key-filtered callback unchanged if and only if it has no blank, carriage return or newline and the message fits 895 characters, or is too long only by the label of an empty value |
| `Subscribers.Publisher.Accept` | lib/cmos/cmos_pub.c:122-143 | Appends a subscriber while there are fewer than 256 |
| `Subscribers.Publisher.Remove` | lib/cmos/cmos_pub.c:183-184 | Takes out one socket and keeps the order of the others |
| `Subscribers.Publisher.Broadcast` | lib/cmos/cmos_pub.c:172-189 | Removal during the send loop: every subscriber is sent to exactly once, those that fail for good go, the others stay in order |
| `Subscribers.SurvivorsExactly` | lib/cmos/cmos_pub.c:172-189 | A subscriber stays if and only if its own send did not fail for good, and is reached if and only if its own send went through |
| `Subscribers.SurvivorsInOrder` | lib/cmos/cmos_pub.c:172-189 | Neither those that stay nor those that are reached change places |
| `TcpAdu.BuildFc03` | lib/modbus/modbus_tcp_client.c:140-156 | The bytes are the frame that determines id, unit, address and quantity |
| `TcpAdu.BuildFc06` | lib/modbus/modbus_tcp_client.c:162-178 | The bytes are the frame that determines id, unit, address and value |
| `TcpAdu.BuildFc16` | lib/modbus/modbus_tcp_client.c:185-213 | The bytes are the frame that determines id, unit, address and all values |
| `TcpAdu.FrameBytes` | lib/modbus/modbus_tcp_client.c:140-213 | The header byte by byte: id, protocol 0, number of bytes that follow; then the body of RtuClient.BodyBytes |
| `TcpAdu.Builder.BuildBasis` | lib/modbus/modbus_tcp.c:474-510 | Refuses bad arguments without using up an id; for function 3 the frame is the read request |
| `TcpAdu.Builder.BuildFc06` | lib/modbus/modbus_tcp.c:512-543 | Same frame as the client's builder for the same id |
| `TcpAdu.Builder.BuildFc16` | lib/modbus/modbus_tcp.c:545-592 | Byte for byte the frame of the client's builder for the same id up to 123 registers; beyond, byte count and length field wrap around; no registers or too little room for the wrapped length is refused |
| `TcpAdu.FitsExactly` | lib/modbus/modbus_tcp.c:553-559 | The capacity check covers everything the builder writes, whatever the capacity, if and only if there are at most 127 registers |
| `TcpAdu.FrameDetermines` | lib/modbus/modbus_tcp.c:474-592 | Two requests share a frame if and only if id, function, address and all values are equal |
| `TcpAdu.ParseRequest` | lib/modbus/modbus_tcp.c:594-625 | Parses exactly the requests whose length field is between 6 and 254 and covered by the bytes given, and takes function, address and quantity from their places |
| `TcpAdu.RequestParsesBack` | lib/modbus/modbus_tcp.c:594-625 | Every built frame parses back to its function, address and quantity, whatever follows it |
| `TcpAdu.CutFrameIsRefused` | lib/modbus/modbus_tcp.c:599-612 | A frame cut short anywhere is not parsed |
| `TcpAdu.BuildReadResponse` | lib/modbus/modbus_tcp.c:627-662 | The reply frame of section 6.3 of the application protocol in an MBAP header; too many registers or too little room is refused |
| `TcpAdu.ReplyBytes` | lib/modbus/modbus_tcp.c:627-662 | The reply byte by byte, for all ids and registers |
| `TcpAdu.ReadReplyDecodes` | lib/modbus/modbus_tcp_client.c:403-438 | The built reply is accepted exactly by the read with its id and its quantity, and gives the same registers back |
| `TcpAdu.ValuesComeFromFrameExactly` | lib/modbus/modbus_tcp_client.c:425-438 | What an accepted read returns is determined by the received bytes if and only if the frame is as long as its byte count says, which the client does not check |
| `TcpAdu.ShortFrameIsAccepted` | lib/modbus/modbus_tcp_client.c:425-438 | Such frames exist: for every quantity a bare header of nine bytes with the right byte count is accepted |
| `TcpAdu.SuccessExactly` | lib/modbus/modbus_tcp_client.c:402-440 | On the bytes of the receive buffer: success if and only if the id is right and either an exception bit is followed by a zero, or the read function by the right byte count in a frame of at least nine bytes |
| `TcpAdu.FailureExactly` | lib/modbus/modbus_tcp_client.c:402-427 | Every other result: the number of an exception, -6 for another request's id, -5 for any other frame |
| `TcpAdu.CodeComesFromFrameExactly` | lib/modbus/modbus_tcp_client.c:412-427 | The result is a matter of the received bytes alone if and only if there are nine of them, or the id is wrong, or the eighth is there without an exception bit |
| `TcpStream.ExceptionZeroSucceeds` | lib/modbus/modbus_tcp_client.c:412-418 | An exception reply numbered 0 makes the read report success |
| `TcpStream.SevenBytesSucceed` | lib/modbus/modbus_tcp_client.c:225-247 | So does a frame of seven bytes that is no reply at all, if the bytes behind it in the buffer look like one |
| `TcpAdu.ValidateWrite` | lib/modbus/modbus_tcp_client.c:271-310 | The complete table of results: 0 for a full frame with this id and function, or an exception numbered 0; any other exception its number; -6 for another id; -5 for the rest |
| `TcpStream.Socket.RecvExact` | lib/modbus/modbus_tcp_client.c:96-110 | Whatever recv gives, success means exactly the next bytes of the stream in the buffer, and failure loses fewer bytes than asked for |
| `TcpStream.RecvResponse` | lib/modbus/modbus_tcp_client.c:225-247 | Success means exactly the next frame of the stream; with a peer that keeps sending it succeeds if and only if a whole frame of length field 1 to 254 is there; -2 comes only from a timeout, -1 only from a failed recv or a malformed length |
| `TcpStream.KthAdu` | lib/modbus/modbus_tcp_client.c:225-247 | The k-th frame read from any concatenation of frames is the k-th frame |
| `TcpStream.Client.ReadHoldingRegisters` | lib/modbus/modbus_tcp_client.c:367-440 | The request sent carries the next id. With a send that works and a recv that gives, a whole frame is always received and judged, and a server's reply to this request, for any 1 to 125 registers, gives OK and exactly those registers; -4 and -3 have their cause in a timeout, a failed send or recv, or a malformed length, each its own code; any other result is the judgement of the next frame |
| `TcpStream.Client.ReadReplyOf` | lib/modbus/modbus_tcp_client.c:391-440 | The second half of that call, for any id |
| `TcpStream.ReplyIsAnswer` | lib/modbus/modbus_tcp_client.c:391-440 | A stream that begins with the server's reply is accepted and decodes to its registers |
| `TcpStream.Client.Write` | lib/modbus/modbus_tcp_client.c:443-515 | The two write calls in the same way: request, cause of each failure, and the table of ValidateWrite for the next frame |
| `TcpStream.ConfirmationIsSuccess` | lib/modbus/modbus_tcp_client.c:271-310 | A server's twelve-byte confirmation of this write gives 0 and is taken off the stream |
| `TcpTransactions.TidClosedForm` | lib/modbus/modbus_tcp_client.c:124-132 | The n-th request on a connection carries ((n-1) mod 65535) + 1, never 0 |
| `TcpTransactions.SameTidExactly` | lib/modbus/modbus_tcp_client.c:124-132 | Two requests share an id if and only if they are a multiple of 65535 apart |
| `TcpTransactions.AcceptedIsThisRequests` | lib/modbus/modbus_tcp_client.c:402-410 | In every run a reply that passes the id check and is fewer than 65535 requests old answers this very request, and none is left behind it |
| `TcpTransactions.MatchesExactlyWithoutLag` | lib/modbus/modbus_tcp_client.c:383-411 | With a server that answers everything in order, failed sends included: a reply matches if and only if its lag is a multiple of 65535; the lag is 0 until the first timeout, at least the number of timeouts ever after, and exactly that if no send failed |
| `TcpTransactions.LateReply` | lib/modbus/modbus_tcp_client.c:383-411 | A run in which the reply to a request that timed out is refused for the next one |
| `TcpTransactions.JudgedBytesAreThisRequests` | lib/modbus/modbus_tcp_client.c:225-247 | On the byte stream: anything but an id error is a judgement of the frame the server sent for this request |
| `AlarmEngine.BitmaskMeansAllBits` | lib/alarm/alarm_engine.c:18-21 | The mask test holds if and only if every bit of the mask is set in the value |
| `AlarmEngine.ApplySticky` | lib/alarm/alarm_engine.c:48-61 | Emits at most one event, exactly on a change of the condition |
| `AlarmEngine.Run` | lib/alarm/alarm_engine.c:65-115 | One pass leaves each entry's state and emits each entry's events as its own step says, in the order of the table |
| `AlarmEngine.EventsAreMeaning` | lib/alarm/alarm_engine.c:65-115 | In every history, unreadable samples included, the events of each entry are the edges of its condition, or the changes of its register, over its own readable samples, and no other entry has a say |
| `AlarmEngine.RangeAlarm` | lib/alarm/alarm_engine.c:27-30 | In every history a RANGE entry triggers on samples below lo or above hi and clears on samples within them; it is active if and only if its last readable sample lies outside, and if and only if it has had an odd number of events |
| `AlarmEngine.MaskAlarm` | lib/alarm/alarm_engine.c:18-21 | The same of a BITMASK entry, by the bits of the mask |
| `AlarmEngine.StickyAlternates` | lib/alarm/alarm_engine.c:48-61 | Events of a BITMASK or RANGE entry alternate TRIGGER and CLEAR, starting with TRIGGER |
| `AlarmEngine.ChangeRaisesPerChange` | lib/alarm/alarm_engine.c:94-108 | A CHANGE entry emits exactly one TRIGGER per change from the initial 0 and never a CLEAR |
| `DutyConversion.FrequencyIsClose` | src/inverter_cmos_bridge.c:502-524 | The frequency lies between the limits, at most the exact value and less than 2 below it |
| `DutyConversion.TwoRoundings` | src/inverter_cmos_bridge.c:518-523 | The two roundings do lose more than one unit: with limits 0 and 199, duty 199 gives 2 |
| `DutyConversion.Clamps` | src/inverter_cmos_bridge.c:502-554 | Both conversions are clamped to the limits, to 0 and 10000, and to lower and 0 when the limits are no range |
| `DutyConversion.DutyIsNearest` | src/inverter_cmos_bridge.c:531-554 | The duty of a frequency between the limits is the nearest one |
| `DutyConversion.FrequencyMonotone` | src/inverter_cmos_bridge.c:502-524 | More duty never means less frequency, the clamped ranges included |
| `DutyConversion.DutyThereAndBack` | src/inverter_cmos_bridge.c:502-554 | Converted back, the duty never rises and falls by less than (20000 + half the range) / range |
| `DutyConversion.FrequencyThereAndBackExactly` | src/inverter_cmos_bridge.c:502-554 | Frequency to duty and back stays within [f - 2, f] for every frequency if and only if the range is below 20000 |
| `DutyConversion.NoOverflow` | src/inverter_cmos_bridge.c:518-553 | No 32-bit intermediate overflows and the casts to 16 bits lose nothing |

## Left out

- BusCoordinator.Coordinator.Acquire: the nesting depth is an unbounded number, not an unsigned int, because no unit nests deeper than two; the wait itself is a step of BusThreads.
- BusThreads.RunInvariant: at most 8 distinct paths of at most 255 characters; NinthPathIsUnprotected and BusCoordinator.LongPathIsNeverFound show what happens beyond.
- CommandQueue.MergePreservesOutcome: block writes over mergeable addresses are excluded, because there the property is false; MergeExactly and HarmIsPossible say exactly when. The queue's mutex makes each push and pop one step.
- ProfileScan.Poller.ReadDevice: register values are whatever the client gives; where it takes them from bytes that were not received, as ValuesComeFromFrameExactly allows, they are arbitrary.
- PortRuns.UnitsKeepSilence: the 29 ms bound is all the code gives; the 30 ms of its comment hold under the condition stated.
- PortRuns.RunInvariant: paths have at most 255 characters, as the configuration loader ensures, and the reference count is an unbounded number, because there are fewer contexts than an unsigned int can count; locking a mutex that a failed connect has destroyed is not modelled.
- RtuClient.FinishWrite: does not claim that the reply echoes address or value, because the client compares function code, unit id and CRC only.
- TcpAdu.Builder.BuildFc16: calls that would write past the caller's buffer are not run; Overruns and FitsExactly say which these are.
- TcpAdu.ValidateWrite: does not claim that address or value are echoed, because the client does not look at them.
- TcpTransactions.AcceptedIsThisRequests: timeouts and failed sends are assumed to fall between frames; a timeout inside a frame leaves the rest of it in the stream, as the contract of TcpStream.Socket.RecvExact shows.
- CmosMessage.PublishedIsHandled: asks for at least one label and for data of at most 895 characters; for longer data ValueArrivesExactly says what arrives, and an unlabelled value is sent bare.
- CmosMessage.Print: with all four fields null the code formats an uninitialised buffer; the model takes empty data there.
- CmosMessage.EndToEnd: a send that the kernel takes only in part is assumed not to happen; the code does not send the rest.
- CrcErrors.BurstDetected: nothing is claimed about damage of other shapes than bursts of 16 bits and odd numbers of bits.
- UnitLifecycle.Unit.Connect: the registers that the inverter's setup writes set come from the configuration; only the number of these writes is modelled.
- Sockets, epoll, termios, select, fork, shared memory, signals and sleeping appear only as results, sizes and times.
- The commands of src/inverter_cmos_bridge.c other than the two conversions: parsing of numbers and a push each; on_write queues single registers.
- The discovery of publishers through the master and the connection table of lib/cmos/cmos_sub.c.
- The server and client threads of lib/modbus/modbus_tcp.c: callback plumbing around the frames modelled here.
- Alarm logging in SQLite, configuration loading and log output.

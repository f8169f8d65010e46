# Remora communication layer: a verified model

This project models the parts of Remora that move commands and feedback between LinuxCNC and the controller
board, and proves what they keep.  The hardware side of each part (DMA channels, FIFOs, ring memory, flash,
counters, the network) is a step relation that may act between any two accesses of the software.  The code is
modelled in its own form: classes whose methods update their fields, loops that poll, buffers written in place.

| files | part |
|---|---|
| `SpiSlave.dfy`, `SpiDelivery.dfy`, `SpiComms.dfy` | the RP2350's SPI receive path: two chained DMA channels, two interrupts and a polling task |
| `Ring.dfy`, `WizChip.dfy`, `WizDriver.dfy`, `DoubleRead.dfy`, `Datagrams.dfy`, `WizSync.dfy`, `WizSocket.dfy` | WIZnet socket rings, their register access and the datagram layer on top |
| `Checksum.dfy` | the hand-written Internet checksum |
| `SpiEngine.dfy`, `DwSpi.dfy`, `Bcm2835Spi.dfy`, `SystemTimer.dfy` | the Raspberry Pi's SPI masters and its 64-bit timer |
| `Rp1Gpio.dfy` | the RP1 pin driver |
| `SpikeFilter.dfy`, `LinkSupervisor.dfy`, `MotionLimiter.dfy` | feedback filter, link supervision and frequency limiter of the LinuxCNC components |
| `FlashBuffer.dfy` | the paged flash writer |
| `Bytes.dfy` | bytes and their bits |

Where the code and what is said about it part ways, the model follows the code:

- `socket.h:478-481` says that a `recvfrom` result of 0 with PACK_FIRST means an empty datagram; the code sets
  PACK_COMPLETED then, so an empty datagram cannot be told from a busy socket (`WizSocket.ZeroIsAmbiguous`).
  PACK_FIRST also stays set for every later fragment until the datagram is complete.
- After a failed receive `pru_read` looks at the stale header all the same: a stale data header delays the
  detection of a lost link to the fourth failure, revives the link on a reset edge whose transfer failed, and lets
  one glitch through the spike filter.  `LinkSupervisor.ThreeFailures`, `StaleDataRevives` and `GlitchPasses` say
  exactly when.
- A scale of zero set twice in a row slips past the check in `update_freq` (`MotionLimiter.ZeroTwiceSlips`).  The
  test for a disabled joint there tests a pointer, so nothing is claimed of disabled joints.
- A write to an address that is still in the page buffer drops the zeros of the one before
  (`FlashBuffer.OverwriteLosesZeros`).
- The copy flag of the SPI slave is cleared after interrupts are restored, and the completion interrupt (priority 64)
  can preempt the chip-select handler between its test and its clearing of newWriteData; either way a packet announced
  may never be copied (`SpiSlave.DeliveredUnlessBusy`; `SpiDelivery.FirstIsLost` and `SecondIsLost` are such runs).
- A `sendto` that answers with a timeout has queued its data all the same (`WizSocket.SentOrNot`), and an answer left
  over in the interrupt register is taken for that of the next SEND command (`WizSocket.SendCommand`).
- A transfer of the BCM2835 that starts with a byte in the shift register stores the replies one off: the clear bit
  empties the FIFOs only (`Bcm2835Spi.TransferNb`).
- A size register that goes from 255 to 256 during the double read can be read as zero (`DoubleRead.WrongZero`).

Assumptions about the environment are preconditions: completion interrupts are served before the next packet
completes and copies end before the packet after next starts (`SpiSlave.Enabled`), the SPI hardware never stops for
good (`SpiEngine.Progresses`, which the constructors of both masters ask for), a blocking socket wait ends because
something comes or the socket shuts (`WizSocket.WaitEnds`), every SEND command is answered (`WizSocket.Answers`), ring
sizes fit the chip (`WizChip.Chip.Valid`).

## Model

| member | source | states |
|---|---|---|
| `SpiSlave.StepKeepsInv` | Src/remora-hal/RP2350_SPIComms.cpp:207-296 | one byte, one step of either interrupt handler or one of the task, interleaved as their priorities allow, keeps the ping-pong, the owed buffers and rxData intact |
| `SpiSlave.RunSafe` | Src/remora-hal/RP2350_SPIComms.cpp:207-296 | so does every enabled run |
| `SpiSlave.PingPongSafety` | Src/remora-hal/RP2350_SPIComms.cpp:36-94 | from `start` on, over every run: packet k lies whole in buffer k mod 2, no byte is written outside the buffer it is for, the idle channel is re-armed, being served or has its interrupt pending, RxDMAmemoryIdx is the parity of the last packet served |
| `SpiSlave.ServedInTimeOrRunaway` | Src/remora-hal/RP2350_SPIComms.cpp:210-215 | re-arm or run away, exactly: the byte after a packet lands outside its buffer if and only if the other channel was not re-armed in time, as it is when its interrupt was served in time |
| `SpiSlave.NoTornCommand` | Src/remora-hal/RP2350_SPIComms.cpp:228-296 | over every run in which copies end in time, with interrupts nested in any way, rxData outside a copy is its initial value or exactly one received write packet; read and bad-header packets never reach it |
| `SpiSlave.EarlyByte` | Src/remora-hal/RP2350_SPIComms.cpp:275-294 | what a byte that comes too early does, exactly: it gets into the copy if and only if the copy has not yet passed its place |
| `SpiSlave.LateCopyTears` | Src/remora-hal/RP2350_SPIComms.cpp:275-294 | without that promise a command is torn, wherever the task is: one early byte mixes two packets in rxData, which then is no write packet at all |
| `SpiSlave.LateEdgeTears` | Src/remora-hal/RP2350_SPIComms.cpp:266-294 | the same if the byte comes before the edge that has the packet copied |
| `SpiSlave.LateCopyReachable` | Src/remora-hal/RP2350_SPIComms.cpp:207-269 | such a state comes about from `start` on, with all interrupts served in time |
| `SpiSlave.DeliveredUnlessBusy` | Src/remora-hal/RP2350_SPIComms.cpp:266-296 | which packet an edge gets copied, for each point the task can be at and whatever preempts the handler: the write packet looked at last, unless the task had already chosen a buffer or finished a copy; nothing stays announced |
| `SpiSlave.PreemptedEdgeLoses` | Src/remora-hal/RP2350_SPIComms.cpp:266-269 | one edge for two write packets: if the completion interrupt of another one preempts the handler, that one is copied and the first is lost |
| `SpiDelivery.OnlyLaterPackets` | Src/remora-hal/RP2350_SPIComms.cpp:228-296 | nothing is copied twice or late: from any state in which nothing is owed, over every run, rxData outside a copy stays as it is or is a packet that came in later |
| `SpiDelivery.EdgeSettles` | Src/remora-hal/RP2350_SPIComms.cpp:242-296 | after an edge, preempted or not, and the task left alone, nothing is owed any more: what was not copied by then never is |
| `SpiDelivery.PreemptionReachable` | Src/remora-hal/RP2350_SPIComms.cpp:207-269 | from `start` on, the handler can find one write packet announced and be preempted for another |
| `SpiDelivery.FirstIsLost` | Src/remora-hal/RP2350_SPIComms.cpp:266-269 | a run from `start` with interrupts served in time after which the first of two write packets is never copied, in any continuation |
| `SpiDelivery.BusyTaskReachable` | Src/remora-hal/RP2350_SPIComms.cpp:275-296 | from `start` on, an edge can find the task with a copy done and the flag not yet cleared |
| `SpiDelivery.SecondIsLost` | Src/remora-hal/RP2350_SPIComms.cpp:293-295 | a run from `start` after which the second of two write packets is never copied, in any continuation |
| `SpiSlave.TaskAlone` | Src/remora-hal/RP2350_SPIComms.cpp:275-296 | the task left alone ends, with its flag cleared and the whole chosen buffer in rxData |
| `SpiSlave.RunHistory` | Src/remora-hal/RP2350_SPIComms.cpp:207-296 | received packets are only ever added to |
| `SpiSlave.HeaderBytes` | Src/remora-hal/RP2350_SPIComms.cpp:228-231 | the two headers are the bytes 74 69 72 77 and 64 61 65 72 as they arrive |
| `SpiSlave.ReportsPacket` | Src/remora-hal/RP2350_SPIComms.cpp:207-240 | in every state that the run theorems allow, serving a completion interrupt re-arms its channel, reports the packet received last as good exactly if its first four bytes are one of the two headers, and takes note of it exactly if they are the write header |
| `SpiComms.SpiComms.constructor` | Src/remora-hal/RP2350_SPIComms.cpp:30-34 | the fields before initDMA; rxData and txData are the caller's and rxData keeps its contents |
| `SpiComms.SpiComms.InitDma` | Src/remora-hal/RP2350_SPIComms.cpp:50-76 | both receive channels point at the start of their buffers with a full count, the transmit channel at the shadow copy; nothing else changes |
| `SpiComms.SpiComms.Start` | Src/remora-hal/RP2350_SPIComms.cpp:173-201 | clears both buffers, arms the transmit side, waits for chip select and leaves a state from which the run theorems hold |
| `SpiComms.SpiComms.ArmTx` | Src/remora-hal/RP2350_SPIComms.cpp:258-264 | the shadow copy is the current transmit data and its channel streams it from the start |
| `SpiComms.SpiComms.WaitForHigh` | Src/remora-hal/RP2350_SPIComms.cpp:190-195 | ends at the first poll that finds chip select high, or at the deadline; without a warning it was high |
| `SpiComms.SpiComms.CheckHeader` | Src/remora-hal/RP2350_SPIComms.cpp:228-240 | is the step CheckHeader of the transition system; in bytes: good exactly with one of the two headers, and only a write packet sets newWriteData and RXbufferIdx |
| `SpiComms.SpiComms.HandleDmaRxInterrupt` | Src/remora-hal/RP2350_SPIComms.cpp:207-226 | is the handler's steps ServeDma of the transition system, run to their end: the channel acknowledged, at its start and with a full count again, RxDMAmemoryIdx set, and its buffer's header looked at; channel A goes first |
| `SpiComms.SpiComms.HandleNssInterrupt` | Src/remora-hal/RP2350_SPIComms.cpp:242-270 | is the handler's steps ServeCs of the transition system, run to their end; on a rising edge newWriteData moves to copyRXbuffer, the state machine is back at its start and the current transmit data is streamed next; a falling edge does nothing |
| `SpiComms.SpiComms.Tasks` | Src/remora-hal/RP2350_SPIComms.cpp:275-296 | is the task's own steps to their end: rxData becomes the chosen buffer if the flag was set, else stays, and the flag ends clear |
| `SpiComms.SpiComms.CopyWords` | Src/remora-hal/RP2350_SPIComms.cpp:287-291 | the 32-bit copy moves the whole buffer |
| `Ring.AndMask` | lib/W5500_Networking/ioLibrary_Driver/Ethernet/W5100/w5100.c:311 | masking with a power of two less one is the remainder |
| `Ring.AdvancePointer` | lib/W5500_Networking/ioLibrary_Driver/Ethernet/W5100/w5100.c:328-330 | advancing a 16-bit pointer and masking it again follows the ring, also where the pointer itself wraps |
| `Ring.ReadSplit` | lib/W5500_Networking/ioLibrary_Driver/Ethernet/W5100/w5100.c:357-369 | a wrapped read is the read of its first part followed by that of its second |
| `Ring.WriteAppends` | lib/W5500_Networking/ioLibrary_Driver/Ethernet/W5100/w5100.c:314-326 | bytes stored behind n bytes of a ring are appended to them and change none of them |
| `Ring.WriteElsewhere` | lib/W5500_Networking/ioLibrary_Driver/Ethernet/W5100/w5100.c:314-326 | a ring that does not overlap keeps its contents |
| `WizChip.RingsInMemory` | lib/W5500_Networking/ioLibrary_Driver/Ethernet/W5100/w5100.c:264-289 | rings packed side by side lie in the chip's buffer memory |
| `WizChip.RingsApart` | lib/W5500_Networking/ioLibrary_Driver/Ethernet/W5100/w5100.c:264-289 | rings of different sockets or directions do not meet |
| `WizChip.ReceiveAppends` | lib/W5500_Networking/ioLibrary_Driver/Ethernet/W5100/w5100.c:344-374 | the chip's store of a datagram appends its framed bytes to what is pending |
| `WizChip.TransmitSends` | lib/W5500_Networking/ioLibrary_Driver/Ethernet/W5100/w5100.c:302-331 | the chip's transmission takes bytes off the front of what is unsent |
| `WizChip.HwStepLater` | lib/W5500_Networking/ioLibrary_Driver/Ethernet/W5100/w5100.c:228-259 | whatever the chip does on its own, each socket keeps its driver-written pointers, datagrams are only appended to what is pending, and sent plus unsent bytes are conserved |
| `WizChip.AfterGrows` | lib/W5500_Networking/ioLibrary_Driver/Ethernet/W5100/w5100.c:228-259 | while the driver only looks, received size and free size never shrink and a shut socket stays shut |
| `WizDriver.TakenPending` | lib/W5500_Networking/ioLibrary_Driver/Ethernet/W5100/w5100.c:344-374 | moving the read pointer takes exactly that many bytes off the front of what is pending and touches no other socket |
| `WizDriver.CommittedPending` | lib/W5500_Networking/ioLibrary_Driver/Ethernet/socket.c:650-651 | the RECV command frees what was read and changes no pending byte |
| `WizDriver.StoredStages` | lib/W5500_Networking/ioLibrary_Driver/Ethernet/W5100/w5100.c:314-326 | each byte stored extends the staged bytes by itself |
| `WizDriver.StoredKeepsUnsent` | lib/W5500_Networking/ioLibrary_Driver/Ethernet/W5100/w5100.c:314-326 | and overwrites no unsent byte |
| `WizDriver.StoredElsewhere` | lib/W5500_Networking/ioLibrary_Driver/Ethernet/W5100/w5100.c:314-326 | nor anything that another ring holds, in either direction |
| `WizDriver.StoredChanges` | lib/W5500_Networking/ioLibrary_Driver/Ethernet/W5100/w5100.c:314-326 | no address outside the socket's transmit ring changes |
| `WizDriver.EvolveKeepsTx` | lib/W5500_Networking/ioLibrary_Driver/Ethernet/W5100/w5100.c:302-331 | the chip, going on, writes no byte of the transmit memory |
| `WizDriver.EvolveKeepsStaged` | lib/W5500_Networking/ioLibrary_Driver/Ethernet/W5100/w5100.c:302-331 | the chip, going on, does not touch staged bytes |
| `WizDriver.AdvancedQueues` | lib/W5500_Networking/ioLibrary_Driver/Ethernet/W5100/w5100.c:328-330 | moving the write pointer appends exactly the staged bytes to the unsent ones |
| `DoubleRead.MatchIsSnapshot` | lib/W5500_Networking/ioLibrary_Driver/Ethernet/W5100/w5100.c:231-240 | two equal byte-wise readings of a growing register are its value at an instant between them |
| `DoubleRead.SpuriousZero` | lib/W5500_Networking/ioLibrary_Driver/Ethernet/W5100/w5100.c:235 | a zero first reading is trusted alone; it is wrong if and only if the register went from below 256 to a multiple of 256 between the two accesses |
| `DoubleRead.Attempt` | lib/W5500_Networking/ioLibrary_Driver/Ethernet/W5100/w5100.c:233-239 | one pass: readings that agree are a snapshot, readings that differ mean growth |
| `DoubleRead.MismatchMeansGrowth` | lib/W5500_Networking/ioLibrary_Driver/Ethernet/W5100/w5100.c:231-240 | readings that differ mean that the register grew between them |
| `DoubleRead.ReadSize` | lib/W5500_Networking/ioLibrary_Driver/Ethernet/W5100S/w5100s.c:343-357 | the loop ends; a non-zero result is the register's value at an instant of the call, no result exceeds the value at the end, an undisturbed read is exact; a zero result means, exactly, that the last two accesses found a high byte and a low byte of zero |
| `DoubleRead.WrongZero` | lib/W5500_Networking/ioLibrary_Driver/Ethernet/W5100/w5100.c:231-240 | 255 bytes becoming 256 during the call are reported as none |
| `WizSocket.GetSize` | lib/W5500_Networking/ioLibrary_Driver/Ethernet/W5100/w5100.c:228-259 | the same of the chip's received size and free size, read while the chip goes on between any two accesses |
| `WizSocket.Poll` | lib/W5500_Networking/ioLibrary_Driver/Ethernet/socket.c:630-636 | the waiting loops of recvfrom and sendto end if enough ever comes or the socket shuts; a size accepted is really there; a closed socket is reported; busy only if non-blocking |
| `WizSocket.BlockRule` | lib/W5500_Networking/ioLibrary_Driver/Ethernet/W5100/w5100.c:357-369 | at most two blocks that do not wrap make up a wrapped access |
| `WizSocket.WizSocket.constructor` | lib/W5500_Networking/ioLibrary_Driver/Ethernet/socket.c:62-71 | the driver's per-socket state is all zero at first |
| `WizSocket.WizSocket.GetRxBase` | lib/W5500_Networking/ioLibrary_Driver/Ethernet/W5200/w5200.c:238-245 | the summing loop gives the start of the receive ring, the chip going on meanwhile |
| `WizSocket.WizSocket.GetTxBase` | lib/W5500_Networking/ioLibrary_Driver/Ethernet/W5200/w5200.c:247-254 | the summing loop gives the start of the transmit ring |
| `WizSocket.WizSocket.ReadBuf` | lib/W5500_Networking/ioLibrary_Driver/Ethernet/W5100/w5100.c:175-198 | byte by byte, the chip going on in between, a block read gives the pending bytes at its place |
| `WizSocket.WizSocket.ReadBlocks` | lib/W5500_Networking/ioLibrary_Driver/Ethernet/W5100/w5100.c:357-369 | the two-block read gives the first pending bytes across the wrap |
| `WizSocket.WizSocket.WizRecvData` | lib/W5500_Networking/ioLibrary_Driver/Ethernet/W5100/w5100.c:344-374 | returns the first pending bytes and moves the read pointer past them |
| `WizSocket.WizSocket.WriteBuf` | lib/W5500_Networking/ioLibrary_Driver/Ethernet/W5100/w5100.c:121-145 | byte by byte, the chip going on in between, a block write stages its bytes and nothing else |
| `WizSocket.WizSocket.WriteBlocks` | lib/W5500_Networking/ioLibrary_Driver/Ethernet/W5100/w5100.c:314-326 | the one- or two-block write stages the data across the wrap |
| `WizSocket.WizSocket.WizSendData` | lib/W5500_Networking/ioLibrary_Driver/Ethernet/W5100/w5100.c:302-331 | with at most the free size, appends exactly its bytes to what is unsent and keeps all unsent bytes; of the transmit memory outside its ring no byte changes, queued or free; what other rings hold is kept but for what the chip itself sends and receives |
| `WizSocket.WizSocket.WaitFor` | lib/W5500_Networking/ioLibrary_Driver/Ethernet/socket.c:534-540 | the waiting loop on the driver's own state |
| `WizSocket.WizSocket.Close` | lib/W5500_Networking/ioLibrary_Driver/Ethernet/socket.c:198-238 | the socket is shut, its I/O mode, remaining size, packet info, interrupts and sending flag are cleared, other sockets keep theirs |
| `WizSocket.WizSocket.SetIoMode` | lib/W5500_Networking/ioLibrary_Driver/Ethernet/socket.c:776-787 | blocking or not, for this socket alone; any other mode is refused |
| `WizSocket.WizSocket.ReadHeader` | lib/W5500_Networking/ioLibrary_Driver/Ethernet/socket.c:642-738 | size, address and port are those of the next datagram's header, in UDP, raw IP and raw Ethernet framing |
| `WizSocket.WizSocket.Begin` | lib/W5500_Networking/ioLibrary_Driver/Ethernet/socket.c:711-716 | a raw frame over 1514 bytes shuts the socket, any other datagram is begun |
| `WizSocket.WizSocket.Fragment` | lib/W5500_Networking/ioLibrary_Driver/Ethernet/socket.c:678-772 | returns the next bytes of the datagram, min(len, remaining) of them, and leaves the driver in step |
| `WizSocket.WizSocket.RecvFrom` | lib/W5500_Networking/ioLibrary_Driver/Ethernet/socket.c:594-773 | every call from any state in step: exact error codes; a datagram begun gives its first min(len, size) bytes and its sender (address and port in UDP, address in raw IP, the caller's values in raw Ethernet), one begun before its next bytes; the read pointer ends exactly the remaining bytes before a frame boundary; sock_pack_info is 0x81 while bytes remain, else 0; an over-long raw frame shuts the socket; other sockets and the send side are left alone |
| `WizSocket.ZeroIsAmbiguous` | lib/W5500_Networking/ioLibrary_Driver/Ethernet/socket.c:757-772 | a result of 0 means nothing there or an empty datagram taken, and sock_pack_info is 0 in both cases (socket.h:480 says PACK_FIRST marks the second) |
| `WizSocket.OthersStaySettled` | lib/W5500_Networking/ioLibrary_Driver/Ethernet/socket.c:594-773 | receiving on one socket leaves the others in step |
| `WizSocket.FreshIsSettled` | lib/W5500_Networking/ioLibrary_Driver/Ethernet/socket.c:67 | a socket that has received nothing is in step with nothing remaining |
| `WizSocket.ArgumentCode` | lib/W5500_Networking/ioLibrary_Driver/Ethernet/socket.c:496-522 | sendto accepts exactly a datagram socket, a non-empty buffer and, but for raw Ethernet, an address and a port |
| `WizSocket.WizSocket.AwaitAnswer` | lib/W5500_Networking/ioLibrary_Driver/Ethernet/socket.c:561-582 | the wait ends at the first access that finds SENDOK or TIMEOUT in the register, and clears the bit that ended it alone; with both, SENDOK counts |
| `WizSocket.FirstAnswer` | lib/W5500_Networking/ioLibrary_Driver/Ethernet/socket.c:561-582 | with a clear register that access is the first at which the chip raises a bit; with one left over it is the first of all |
| `WizSocket.ClearedRegister` | lib/W5500_Networking/ioLibrary_Driver/Ethernet/socket.c:566-575 | writing a bit clears it for that socket and changes no other bit |
| `WizSocket.WizSocket.SendCommand` | lib/W5500_Networking/ioLibrary_Driver/Ethernet/socket.c:543-585 | with a clear register, the answer is the first that the chip raises after the SEND command; a bit left over is taken for it at once; the subnet mask cleared meanwhile is back at the end, on either answer |
| `WizSocket.WizSocket.SendTo` | lib/W5500_Networking/ioLibrary_Driver/Ethernet/socket.c:490-588 | arguments are refused in the order of the source, each with its code; min(len, ring size) bytes are queued right behind the unsent ones for the address given, or none; busy only without room; a timeout is reported with the data queued all the same; so sent plus unsent bytes grow by exactly that prefix of the buffer |
| `WizSocket.WizSocket.RecvStep` | lib/W5500_Networking/ioLibrary_Driver/Ethernet/socket.c:594-773 | one call from any state in step goes on with the chain of deliveries by one link, or delivers nothing |
| `WizSocket.WizSocket.RecvSeries` | lib/W5500_Networking/ioLibrary_Driver/Ethernet/socket.c:594-773 | any number of calls with any lengths, blocking or not: what they return is a chain of deliveries, so the fragments make up the datagrams arrived, in order, each under its sender with exactly its payload; only the last may be incomplete |
| `WizSocket.WaitEndsExactly` | lib/W5500_Networking/ioLibrary_Driver/Ethernet/socket.c:630-636 | a wait for something to read ends if and only if there is something, the socket is shut, or a datagram that the empty ring can hold comes in or the socket is shut later |
| `WizSocket.WizSocket.LivelyExactly` | lib/W5500_Networking/ioLibrary_Driver/Ethernet/socket.c:630-636 | what a series of blocking calls needs of the traffic, exactly: time and again such a datagram or a shut-down |
| `WizSocket.WizSocket.TrafficIsLively` | lib/W5500_Networking/ioLibrary_Driver/Ethernet/socket.c:630-636 | steady traffic is enough, the socket never being shut |
| `WizSync.SyncLater` | lib/W5500_Networking/ioLibrary_Driver/Ethernet/socket.c:594-773 | arrivals keep the driver in step with the framing |
| `WizSync.SyncHeader` | lib/W5500_Networking/ioLibrary_Driver/Ethernet/socket.c:643-677 | at a frame boundary the next bytes are a header, and reading it leaves that datagram's payload in front |
| `WizSync.SyncPayload` | lib/W5500_Networking/ioLibrary_Driver/Ethernet/socket.c:678-694 | inside a datagram the next bytes are its unread ones |
| `WizSync.NothingPending` | lib/W5500_Networking/ioLibrary_Driver/Ethernet/socket.c:630-636 | bytes are pending exactly when there is a datagram to go on with or to begin |
| `WizSync.HeaderDecodes` | lib/W5500_Networking/ioLibrary_Driver/Ethernet/socket.c:665-672 | decoding a header gives back the address, port and size it was made from |
| `WizSync.ReturnedIsNext` | lib/W5500_Networking/ioLibrary_Driver/Ethernet/socket.c:594-773 | what recvfrom returns is the next link in the chain of deliveries |
| `WizSync.CallsReassemble` | lib/W5500_Networking/ioLibrary_Driver/Ethernet/socket.c:594-773 | over any chain of deliveries with any lengths and arrivals: the fragments make up the datagrams in order of arrival, each under its own sender with exactly its payload, the last one perhaps incomplete |
| `Datagrams.NextInOrder` | lib/W5500_Networking/ioLibrary_Driver/Ethernet/socket.c:678-755 | one more fragment keeps the reassembly in order |
| `Checksum.Thumb2Checksum` | lib/W5500_Networking/arch/checksum.c:29-123 | for every byte sequence and every start alignment, the result is the 16-bit one's complement sum of RFC 1071, section 1, and is 0 only for all-zero data |
| `Checksum.SectionThree` | lib/W5500_Networking/arch/checksum.c:29-123 | the reference sum of the example of RFC 1071, section 3 |
| `Checksum.OnesSumStandsForPlainSum` | lib/W5500_Networking/arch/checksum.c:107-113 | deferred carries: the one's complement sum is the plain sum modulo 65535, with zero only for zero |
| `Checksum.OnesSumZero` | lib/W5500_Networking/arch/checksum.c:29-123 | the reference sum is 0 exactly for all-zero data |
| `Checksum.SwapStandsFor` | lib/W5500_Networking/arch/checksum.c:115-117 | swapping the bytes of the sum undoes the odd start |
| `Checksum.ByteOrderIndependence` | lib/W5500_Networking/arch/checksum.c:40-43 | swapping the bytes of every word swaps the bytes of the sum (RFC 1071, section 2 (B)) |
| `Checksum.WordStep` | lib/W5500_Networking/arch/checksum.c:78-83 | a 32-bit add with end-around carry accounts for four bytes |
| `Checksum.FoldStandsFor` | lib/W5500_Networking/arch/checksum.c:106-113 | the two-step fold keeps what the sum stands for |
| `SpiEngine.StepKeeps` | linuxcnc-remora-spi/spi-dw.c:12-22 | a hardware step loses and reorders nothing, if the software left room or the clock waits |
| `SpiEngine.RunKeeps` | linuxcnc-remora-spi/spi-dw.c:12-22 | so do any number of steps; what is in flight stays |
| `SpiEngine.PushKeeps` | linuxcnc-remora-spi/spi-dw.c:47 | pushing into a FIFO that is not full loses nothing |
| `SpiEngine.PopKeeps` | linuxcnc-remora-spi/spi-dw.c:58 | popping gives the oldest reply |
| `SpiEngine.ClearKeeps` | linuxcnc-remora-spi/bcm2835.c:798-801 | clearing the FIFOs starts afresh if and only if the shift register is empty |
| `SpiEngine.RepliesFrom` | linuxcnc-remora-spi/bcm2835.c:818-823 | the replies read are those to the bytes from the one in the shift register on, in order |
| `SpiEngine.SentFrom` | linuxcnc-remora-spi/bcm2835.c:812-817 | what was written goes out in order behind the byte in the shift register |
| `SpiEngine.Exchanged` | linuxcnc-remora-spi/spi-dw.c:164-172 | between two moments with nothing in flight, the bytes written went out in order and the bytes read are the slave's replies to them, in order |
| `SpiEngine.CountdownExists` | linuxcnc-remora-spi/spi-dw.c:166-169 | a hardware that never stops for good has a bound on each wait, which the constructors of both masters take |
| `SpiEngine.CountdownMeansProgress` | linuxcnc-remora-spi/spi-dw.c:166-169 | and only such a hardware has one |
| `DwSpi.DwSpi.TxMax` | linuxcnc-remora-spi/spi-dw.c:6-23 | never more than is left, than the transmit FIFO has room for, or than the receive side can take counting the shift register |
| `DwSpi.DwSpi.RxMax` | linuxcnc-remora-spi/spi-dw.c:26-29 | although RXFLR is read twice and may grow in between: never more than is expected nor than the FIFO holds |
| `DwSpi.DwSpi.Writer` | linuxcnc-remora-spi/spi-dw.c:31-50 | writes further bytes in order; neither FIFO can overflow |
| `DwSpi.DwSpi.Reader` | linuxcnc-remora-spi/spi-dw.c:52-71 | stores further replies in order; never reads an empty FIFO |
| `DwSpi.DwSpi.Round` | linuxcnc-remora-spi/spi-dw.c:166-169 | in flight is always rx_len - tx_len, at most fifo_len; a round that changes nothing is waiting for the hardware |
| `DwSpi.DwSpi.PollTransfer` | linuxcnc-remora-spi/spi-dw.c:164-172 | for any hardware pace that does not stop for good the loop ends, everything is written in order and all replies are stored in order |
| `DwSpi.OnlyBit` | linuxcnc-remora-spi/rp1lib.c:73 | 1 << n has bit n set and no other |
| `DwSpi.DwSpi.Rp1SpiTransfer` | linuxcnc-remora-spi/rp1lib.c:56-80 | a full-duplex exchange with null, separate or shared buffers: the wire carries the original bytes, every one of them with bit `chip_select` of the slave enable register set and no other, the receive buffer ends as the replies, and no slave is enabled afterwards |
| `Bcm2835Spi.Bcm2835Spi.FillTx` | linuxcnc-remora-spi/bcm2835.c:813-817 | sends the next bytes in the chosen bit order, as many as fit |
| `Bcm2835Spi.Bcm2835Spi.DrainRx` | linuxcnc-remora-spi/bcm2835.c:819-823 | stores the next replies in the chosen bit order |
| `Bcm2835Spi.Bcm2835Spi.Round` | linuxcnc-remora-spi/bcm2835.c:810-824 | RXCnt <= TXCnt <= len from an idle controller, so replies only land on bytes already sent; with a byte on its way before, RXCnt may be one ahead |
| `Bcm2835Spi.Bcm2835Spi.Exchange` | linuxcnc-remora-spi/bcm2835.c:810-824 | the outer loop ends for any FIFO pace and is a correct exchange |
| `Bcm2835Spi.Bcm2835Spi.AwaitDone` | linuxcnc-remora-spi/bcm2835.c:825-827 | the wait for DONE ends, with nothing more on its way out and no reply lost |
| `Bcm2835Spi.Bcm2835Spi.TransferNb` | linuxcnc-remora-spi/bcm2835.c:791-831 | ends in every state of the controller; a correct exchange, whether or not the two buffers are one, whatever was left in the FIFOs, if the shift register is empty at the clear bit; otherwise the replies are one off; bytes go out and come in as they are, or with their bits mirrored when set to least significant bit first |
| `Bcm2835Spi.Bcm2835Spi.TransferN` | linuxcnc-remora-spi/bcm2835.c:879-882 | in place: sends exactly the original bytes and leaves exactly the replies, under the same condition |
| `Bcm2835Spi.OrderAllMirrors` | linuxcnc-remora-spi/bcm2835.c:82-126 | the reverse table, as arithmetic: bit k of the result is bit 7 - k of the byte, or bit k in the default order |
| `Bcm2835Spi.Bcm2835Spi.SetBitOrder` | linuxcnc-remora-spi/bcm2835.c:723-726 | sets the order alone |
| `SystemTimer.Linearizable` | linuxcnc-remora-spi/bcm2835.c:1644-1655 | the value put together is the counter's at an instant of the call, for calls of less than 2^64 - 2^32 ticks; with up to 2^32 ticks that at a register access, the overflow test telling which |
| `SystemTimer.LongReadIsNotAnAccess` | linuxcnc-remora-spi/bcm2835.c:1644-1655 | from 2^32 + 1 ticks on the instant need not be an access |
| `SystemTimer.SystemTimer.StRead` | linuxcnc-remora-spi/bcm2835.c:1626-1657 | linearizable read of two registers: the low 64 bits of the counter at an instant of the call; 0 when unmapped |
| `SystemTimer.SystemTimer.TwoReads` | linuxcnc-remora-spi/bcm2835.c:1626-1657 | reads in sequence never go backwards |
| `Rp1Gpio.AddressesInjective` | linuxcnc-remora-spi/gpiochip_rp1.c:82-102 | pin, bank and offset, and register address determine each other |
| `Rp1Gpio.Addresses` | linuxcnc-remora-spi/gpiochip_rp1.c:12-47 | byte addresses of the control, pad, output and output enable registers of every pin, bank by bank |
| `Rp1Gpio.DecodeEncode` | linuxcnc-remora-spi/gpiochip_rp1.c:214-254 | the function field reads back as written, whatever the other control bits |
| `Rp1Gpio.FieldBits` | linuxcnc-remora-spi/gpiochip_rp1.c:203-254 | a function number is written into the low five bits with its own binary digits, and read by them |
| `Rp1Gpio.DirSetPin` | linuxcnc-remora-spi/gpiochip_rp1.c:159-186 | setting a direction changes that pin's output enable alone |
| `Rp1Gpio.DriveSetPin` | linuxcnc-remora-spi/gpiochip_rp1.c:303-313 | setting a drive changes that pin's output bit alone |
| `Rp1Gpio.PadSetPin` | linuxcnc-remora-spi/gpiochip_rp1.c:315-329 | writing a pad register changes one pin alone |
| `Rp1Gpio.FselSetPin` | linuxcnc-remora-spi/gpiochip_rp1.c:227-283 | selecting a function changes one pin's control, pad and, for input and output, direction alone |
| `Rp1Gpio.SelectedKeeps` | linuxcnc-remora-spi/gpiochip_rp1.c:253-282 | no control bit outside the function field and no pad bit but input enable and output disable changes |
| `Rp1Gpio.DoOne` | linuxcnc-remora-spi/gpiochip_rp1.c:173-357 | after one call its pin's getters say what it set, FUNC5 being GPIO, selecting a function enables input and output and selecting none disables both, and all other pins are as they were |
| `Rp1Gpio.PinsIndependent` | linuxcnc-remora-spi/gpiochip_rp1.c:85-357 | over any sequence of calls, the register file behaves as 54 independent pins |
| `Rp1Gpio.LibFselRoundTrip` | linuxcnc-remora-spi/rp1lib.c:199-220 | gpio_get_fsel says what gpio_set_fsel set; plain GPIO reads as the direction kept |
| `Rp1Gpio.Rp1Chip.Write32` | linuxcnc-remora-spi/gpiochip_rp1.c:141-171 | the set and clear aliases change the bits given |
| `Rp1Gpio.Rp1Chip.GetBank` | linuxcnc-remora-spi/gpiochip_rp1.c:85-102 | bank and offset of a valid pin |
| `Rp1Gpio.Rp1Chip.SetDir` | linuxcnc-remora-spi/gpiochip_rp1.c:173-186 | is the call DirSet of the model: the output enable bit of the pin is set exactly for output, no other bit changes |
| `Rp1Gpio.Rp1Chip.GetDir` | linuxcnc-remora-spi/gpiochip_rp1.c:188-201 | reads the pin's direction, output exactly if its output enable bit is set |
| `Rp1Gpio.Rp1Chip.GetFsel` | linuxcnc-remora-spi/gpiochip_rp1.c:203-225 | reads the pin's function by the five bits of its field |
| `Rp1Gpio.Rp1Chip.SetFsel` | linuxcnc-remora-spi/gpiochip_rp1.c:227-283 | is the call FselSet of the model; a function gets its number into the field, GPIO, input and output 5 and none 31; input is then enabled and output not disabled unless it is none; only input and output set the direction; values that are no function do nothing |
| `Rp1Gpio.Rp1Chip.SetDrive` | linuxcnc-remora-spi/gpiochip_rp1.c:303-313 | is the call DriveSet of the model: the output bit is set for high, cleared for low and kept otherwise, no other bit changes |
| `Rp1Gpio.Rp1Chip.GetDrive` | linuxcnc-remora-spi/gpiochip_rp1.c:348-357 | reads what the pin is driven to, by its output bit |
| `Rp1Gpio.Rp1Chip.SetPull` | linuxcnc-remora-spi/gpiochip_rp1.c:315-329 | is the call PullSet of the model: pull-up and pull-down enable as asked, never both, no other bit changes |
| `Rp1Gpio.Rp1Chip.GetPull` | linuxcnc-remora-spi/gpiochip_rp1.c:331-346 | reads the pin's pull, pull-up first |
| `Rp1Gpio.Rp1Chip.GpioGetFsel` | linuxcnc-remora-spi/rp1lib.c:199-214 | GPIO told apart by direction |
| `Rp1Gpio.Rp1Chip.GpioSet` | linuxcnc-remora-spi/rp1lib.c:229-233 | the pin becomes an output driven high, all other pins keep their settings |
| `Rp1Gpio.Rp1Chip.GpioClear` | linuxcnc-remora-spi/rp1lib.c:236-240 | the pin becomes an output driven low, all other pins keep their settings |
| `LinkSupervisor.StaysDown` | remora-eth/remora-eth-3.0.c:715-722 | down and without a reset edge: no transfer, and down still |
| `LinkSupervisor.DownForGood` | remora-eth/remora-eth-3.0.c:715-817 | the same over every run |
| `LinkSupervisor.NothingTransferred` | remora-eth/remora-eth-3.0.c:715-722 | and nothing is transferred at any step of it |
| `LinkSupervisor.LossDetected` | remora-eth/remora-eth-3.0.c:917-930 | four alternating reads and writes that all fail bring the status down, from any state, whatever stale header is in the buffer |
| `LinkSupervisor.NoFifthTransfer` | remora-eth/remora-eth-3.0.c:917-930 | however long the loss lasts, no fifth transfer is attempted |
| `LinkSupervisor.LossSurvived` | remora-eth/remora-eth-3.0.c:715-931 | over every run of failing steps, in any order, without a reset edge while down: the status is up at the end if and only if every step lets it live, which the step, the failures counted before it and the stale header decide |
| `LinkSupervisor.LossUnnoticed` | remora-eth/remora-eth-3.0.c:715-931 | from three failures on that is: the stale header is data, every read is enabled, and no write is the third failure or a later one |
| `LinkSupervisor.ThreeFailures` | remora-eth/remora-eth-3.0.c:715-818 | after three alternating failures from a good link the status is up if and only if the first and last are enabled reads and the stale header is data |
| `LinkSupervisor.FourAreNeeded` | remora-eth/remora-eth-3.0.c:724-728 | so four is tight |
| `LinkSupervisor.ReadsAloneNeverNotice` | remora-eth/remora-eth-3.0.c:724-728 | so without writes the loss is never noticed while the stale header is data |
| `LinkSupervisor.EstopLatches` | remora-eth/remora-eth-3.0.c:798-802 | an E-stop that arrives in either direction latches |
| `LinkSupervisor.LatchStep` | remora-eth/remora-eth-3.0.c:715-809 | latched, a step raises the status if and only if it is a reset edge whose own transfer brings data; any other step keeps it latched |
| `LinkSupervisor.EstopHolds` | remora-eth/remora-eth-3.0.c:715-896 | so it holds over every run without such a step |
| `LinkSupervisor.StaleDataRevives` | remora-eth/remora-eth-3.0.c:722-753 | after a plain link loss a reset edge with a failed transfer raises the status if and only if the stale header is data, and takes the stale feedback in again |
| `LinkSupervisor.StaleGlitch` | remora-eth/remora-eth-3.0.c:724-752 | over every run without fresh feedback the filter counts exactly the failed reads that find a data header, and the second lets the glitch through |
| `LinkSupervisor.GlitchPasses` | remora-eth/remora-eth-3.0.c:724-752 | one datagram with a glitch gets through if and only if at least two failed reads find a data header before fresh feedback comes |
| `LinkSupervisor.OneGlitchPasses` | remora-eth/remora-eth-3.0.c:730-748 | a run in which it does |
| `LinkSupervisor.LinkDriver.PruTransfer` | remora-eth/remora-eth-3.0.c:901-931 | a failure leaves the buffer and counts, a datagram replaces all of it or its header, the third failure in a row clears the status |
| `LinkSupervisor.LinkDriver.FilterJoints` | remora-eth/remora-eth-3.0.c:730-748 | the in-place loop filters every joint by the spike filter's step; in counts: 250 or less from the old count, or after two rejections, the feedback is taken and the rejections are zero, else the count stays and one more rejection is counted |
| `LinkSupervisor.LinkDriver.PruRead` | remora-eth/remora-eth-3.0.c:703-818 | is the step AfterRead of the model; on the fields: it polls exactly when enabled and on a reset edge or up; a datagram replaces the buffer and zeroes the error count, a failure keeps the buffer and counts; the status that follows, from the header and the count; near feedback becomes the count at once, far feedback the third time |
| `LinkSupervisor.LinkDriver.PruWrite` | remora-eth/remora-eth-3.0.c:865-898 | is the step AfterWrite of the model; on the fields: it transfers exactly when up; a success zeroes the error count, a failure counts one; up afterwards exactly with at most two failures in a row and one of the three headers; the feedback is left alone |
| `SpikeFilter.GlitchRemoved` | remora-eth/remora-eth-3.0.c:730-748 | one or two far samples before a near one leave no trace in any later output |
| `SpikeFilter.ThirdPasses` | remora-eth/remora-eth-3.0.c:737-748 | a third far sample in a row passes |
| `SpikeFilter.OneInThree` | remora-eth/remora-eth-3.0.c:737-748 | of any three samples in a row at least one is accepted, in every run |
| `SpikeFilter.RejectionsAreRecent` | linuxcnc-remora-spi/remora-spi.c:1103-1114 | the count of rejections is that of the samples just rejected, the output standing still since |
| `SpikeFilter.NearIsTaken` | remora-eth/remora-eth-3.0.c:730-748 | after any run a near sample becomes the output and the count of rejections is zero |
| `SpikeFilter.FarIsCounted` | remora-eth/remora-eth-3.0.c:730-748 | a far sample is rejected and counted, or taken if two were rejected just before |
| `SpikeFilter.FarMeans` | remora-eth/remora-eth-3.0.c:737-740 | far is more than 250 counts apart, either way |
| `SpikeFilter.JumpAfterTwoRejections` | linuxcnc-remora-spi/remora-spi.c:1103-1114 | in every run an output jump above 250 comes only right after two rejected samples |
| `MotionLimiter.ZeroScaleSlips` | remora-eth/remora-eth-3.0.c:523-532 | a zero scale gets past the check if and only if the scale checked before was zero too |
| `MotionLimiter.ZeroTwiceSlips` | remora-eth/remora-eth-3.0.c:523-532 | so setting it to zero twice in a row does |
| `MotionLimiter.Limit` | remora-eth/remora-eth-3.0.c:538-583 | a limit is never above the highest one, nor negative |
| `MotionLimiter.LimitIdempotent` | remora-eth/remora-eth-3.0.c:538-583 | rewriting a limit parameter twice is rewriting it once |
| `MotionLimiter.LimitsIdempotent` | remora-eth/remora-eth-3.0.c:534-583 | the same of maxvel and maxaccel together |
| `MotionLimiter.UpdateBounds` | remora-eth/remora-eth-3.0.c:663-688 | the frequency stays within the base frequency and changes by at most max_ac * dt <= max_freq in a period |
| `MotionLimiter.AlwaysInRange` | remora-eth/remora-eth-3.0.c:496-700 | in every state reachable from rest, through any inputs, periods and parameter changes, the frequency is within the base frequency |
| `MotionLimiter.PositionControl` | remora-eth/remora-eth-3.0.c:590-651 | with a resting command a joint is told to stop exactly within the deadband and is driven towards the command outside it |
| `MotionLimiter.UpdateIdempotent` | remora-eth/remora-eth-3.0.c:496-700 | a second period finds the same limits and the same target |
| `MotionLimiter.SlewsDistance` | linuxcnc-remora-spi/remora-spi.c:999-1014 | the distance shrinks by the change per period, without crossing over |
| `MotionLimiter.ConstantCommand` | remora-eth/remora-eth-3.0.c:657-696 | under a constant velocity command the frequency goes monotonically to velocity times scale, clamped to min(base, maxvel * abs(scale)); it is there after n periods exactly if n changes of min(maxaccel * abs(scale) * dt, that limit) cover the distance, and stays |
| `MotionLimiter.UpdateMeans` | remora-eth/remora-eth-3.0.c:496-700 | one period in numbers, for both control modes: scale, the rewritten limits, the command and its derivative kept, and the frequency, by arithmetic that shares only the clamp and the slew with the step |
| `MotionLimiter.Reached` | remora-eth/remora-eth-3.0.c:657-688 | a command within both limits is met in one period: the frequency is velocity times scale |
| `MotionLimiter.SlewMeans` | remora-eth/remora-eth-3.0.c:663-688 | clamp and slew, case by case |
| `MotionLimiter.Generators.constructor` | remora-eth/remora-eth-3.0.c:305-333 | joints start at rest with scale 1 and acceleration limit 1 |
| `MotionLimiter.Generators.CheckScale` | remora-eth/remora-eth-3.0.c:523-532 | is the scale check of the model, in place |
| `MotionLimiter.Generators.ApplyLimit` | remora-eth/remora-eth-3.0.c:537-583 | is the limit rule of the model |
| `MotionLimiter.Generators.GetCommand` | remora-eth/remora-eth-3.0.c:590-659 | is the command of the model, in both control modes |
| `MotionLimiter.Generators.Approach` | remora-eth/remora-eth-3.0.c:663-688 | clamp, then slew |
| `MotionLimiter.Generators.UpdateFreq` | remora-eth/remora-eth-3.0.c:496-700 | the loop updates every joint by the model's step, keeping the constants of an unchanged period; in numbers, with the period in seconds: velocity command or proportional control with feed forward, times the scale, clamped and slewed; limits and scale rewritten; zero without the enable pin that the test looks at |
| `FlashBuffer.WriteImage` | Src/remora-hal/hal_utils.cpp:86-104 | one buffered write, exactly: the byte becomes what it was when its page was opened with the new value programmed over it, and nothing else changes |
| `FlashBuffer.WriteIsDirect` | Src/remora-hal/hal_utils.cpp:90-102 | so it agrees with direct programming if and only if no zero gathered for that byte is lost |
| `FlashBuffer.OverwriteLosesZeros` | Src/remora-hal/hal_utils.cpp:97 | 0x0F then 0xF0 to one byte leaves 0xF0, direct programming 0 |
| `FlashBuffer.RefinesDirect` | Src/remora-hal/hal_utils.cpp:86-118 | distinct addresses, any order, any page switching: after a flush the flash is as if every byte had been programmed at once |
| `FlashBuffer.WrittenAndLocked` | Src/remora-hal/hal_utils.cpp:78-118 | each written address holds its byte if it was erased before, every other address is unchanged |
| `FlashBuffer.PagesProgrammed` | Src/remora-hal/hal_utils.cpp:90-102 | n ascending writes from a page boundary program exactly ceil(n/256) pages |
| `FlashBuffer.EraseWriteLock` | Src/remora-hal/hal_utils.cpp:53-104 | erase, write, lock: the range reads as written and blank elsewhere, the rest of the flash is untouched |
| `FlashBuffer.WordFromBytes` | Src/remora-hal/hal_utils.cpp:112-118 | the four bytes of a word give the word back |
| `FlashBuffer.WordReadsBack` | Src/remora-hal/hal_utils.cpp:112-118 | a word written to erased flash, anywhere relative to the pages, reads back from its four addresses, low byte first |
| `FlashBuffer.HalfwordReadsBack` | Src/remora-hal/hal_utils.cpp:106-110 | the same of a halfword |
| `FlashBuffer.FlashWriter.constructor` | Src/remora-hal/hal_utils.cpp:74-76 | no page is open at first |
| `FlashBuffer.FlashWriter.FlushWriteBuffer` | Src/remora-hal/hal_utils.cpp:78-84 | is the flush of the model: the flash becomes what it was going to be |
| `FlashBuffer.FlashWriter.WriteToFlashByte` | Src/remora-hal/hal_utils.cpp:86-104 | is the write of the model, at the address less 0x10000000 |
| `FlashBuffer.FlashWriter.WriteToFlashHalfword` | Src/remora-hal/hal_utils.cpp:106-110 | is the two writes, low byte first; on erased flash the value reads back there |
| `FlashBuffer.FlashWriter.WriteToFlashWord` | Src/remora-hal/hal_utils.cpp:112-118 | is the four writes, low byte first; on erased flash the value reads back there |
| `FlashBuffer.FlashWriter.MassEraseFlashSector` | Src/remora-hal/hal_utils.cpp:49-51 | erases one sector and nothing else |
| `FlashBuffer.FlashWriter.MassEraseConfigStorage` | Src/remora-hal/hal_utils.cpp:53-58 | erases the 16 KB of the configuration and nothing else |
| `FlashBuffer.FlashWriter.MassEraseUploadStorage` | Src/remora-hal/hal_utils.cpp:60-64 | erases the 16 KB of the upload area and nothing else |

## Left out

- SpiSlave.NoTornCommand: says nothing of the transmit side (the shadow copy, its DMA channel and the restart of the PIO program); there is no synchronisation in the code that a claim could rest on.
- SpiComms.SpiComms.Start: the run begins with whole packets; Core 0 may change the transmit data while it is copied, which `ArmTx` does not model.
- WizSocket.WizSocket.RecvFrom: PPPoE sockets are excluded by its precondition (their data is skipped by `wiz_recv_ignore`), and so is a socket number one past the last, which the source does not check.
- WizSocket.WizSocket.SendTo: what the chip raises, and when, comes from the environment; that every SEND is answered is a precondition.
- WizSocket.WizSocket.Close: the chip executes the CLOSE command at once.
- WizSocket.WizSocket.GetSize: stands for both size registers; commands and 16-bit registers that only the driver writes are one access each.
- WizSocket.Poll: works on a value of the chip and the number of accesses made, which the class then takes over.
- TCP (`socket`, `listen`, `connect`, `disconnect`, `send`, `recv`), socket options but the I/O mode, and the W5300 and W5500 chips: connection set-up and thin wrappers around the same ring code.
- DwSpi.DwSpi.Rp1SpiTransfer: 8-bit frames, which `rp1spi_init` selects; the 16- and 32-bit branches, clock dividers and the device structures are left out, and so are chip-select delays.
- Bcm2835Spi.Bcm2835Spi.TransferNb: with one buffer and a byte in the shift register, which bytes go out depends on the pace and is not stated; the control register is its transfer and clear bits; memory barriers, `bcm2835_spi_transfer`, `writenb` and the auxiliary SPI are left out.
- SystemTimer.SystemTimer.StRead: `bcm2835_st_delay` is left out.
- Rp1Gpio.PinsIndependent: register words are modelled as sets of bit positions; pin numbers above 53, which the source asserts against, levels and names are left out.
- LinkSupervisor.LinkDriver.PruRead: position feedback, process variables and inputs are copied but not modelled; the receive loop with its time limit is one transfer that brings nothing or a datagram.
- LinkSupervisor.LinkDriver.PruWrite: packing of the outgoing fields is left out.
- SpikeFilter.JumpAfterTwoRejections: the 32-bit difference wraps, where C leaves a signed overflow undefined.
- MotionLimiter.ConstantCommand: over the reals; rounding of float and double is not modelled.
- MotionLimiter.Generators.UpdateFreq: the unused reciprocal of the scale is left out; the SPI variant's default deadband keeps the sign of the scale, the one modelled is the Ethernet variant's.
- FlashBuffer.FlashWriter.EraseSector: interrupts and the lockout of the other core are left out.
- SPI variant of the link (`spi_read`, `spi_write`): it has no error count to supervise.
- HAL pin export, module parameters, device tree, memory mapping, UDP socket set-up, the TFTP handler, the user interface: foreign calls and input/output.

# Verified models of the repository's protocols

This project models the pieces of the repository that are protocols, state machines or
data formats, and proves what each promises on every input or every run. Modules follow
the components; each begins with the step function or specification function of its code,
and the objects that the code updates in place are classes or loops proved against it.

`dafny verify dfyconfig.toml` checks everything, within the default limits.

| component | modules |
|---|---|
| shared | Basics, TsPacket |
| bit-banged UART driver | BitbangFrame, BitbangDevice, BitbangHalves, BitbangReopen, BitbangLink, BitbangTimers, BitbangRoundTrip, BitbangSkew |
| SPI slave receive ring | SpiPacketizer, SpiRing, SpiSystem, SpiDriver, SpiBytes, SpiUnread |
| H.264 byte stream tools (ITU-T H.264, sections 7.3.1, 7.4.1 and Annex B) | H264StartCodes, H264AnnexB, H264Emulation, H264Patch, H264PatchTwice |
| MPEG-TS tools (ISO/IEC 13818-1, sections 2.4.3 and 2.4.4) | TsTimestamps, TsContinuity, TsJumps, TsExtract, TsFind, TsTables, TsAnalyzer, TsPes, TsOverLimit, TsLayout, TsClocks |
| UDP proxy client table | UdpClientTable, UdpProxy |
| INI stream configuration | IniText, IniStream, IniMeaning |
| GPIO UART transmit ring | TxRing |
| increment validator | IncValidator |

## Where to begin

* **BitbangSkew.FaithfulIffBound**: two drivers on one wire, each on its own clock, any
  interleaving of timer callbacks, interrupts, writers and readers, any callback latency
  up to `late`. Every run accepts the written bytes into the receive queue in order, without
  an error, if and only if 20pt + 2late < 21pr, 19pr + 6late < 20pt and pr + 6late < 2pt (pt
  and pr are the bit periods of sender and receiver). Without latency this is the pair
  20pt < 21pr and 19pr < 20pt. A reader that is too slow still loses the oldest bytes of a
  full queue, as `BitbangHalves.RxAccounting` says.
* **SpiSystem.SafeForever**, **DeliveryIsFifo**, **SpiBytes.DeliveredBytes**: every
  interleaving of the receive thread, readers and clears, the exact fate of every packet and
  every word, and the bytes each reader gets in the order in which they came in.
* **H264AnnexB.ByteStreamRoundTrip**, **H264Emulation.StreamRoundTrip**,
  **H264Patch.PatchKeepsFraming**: each an if-and-only-if over all byte streams.
* **TsPes.FileRows**, **TsContinuity.LostIsMissing**: whole files, PIDs interleaved in
  any way; **TsLayout.FrameOfTwoStarts** ties the packet layout of the standard to the row
  printed, and **TsClocks.RunIsTold** the printed times to the events of the run.
* **UdpClientTable.GoodForever** with **UdpProxy.Proxy.CleanupPass**: the linked list in
  place against a map of addresses and a history of socket calls.
* **IniStream.ComposesIffHeaderFirst**: exactly which chunks may be parsed separately;
  **IniMeaning.EmptyValueDeletes** and **ValueIsStored**: what a chunk of text does to the map.

## What the code does not promise after all

Each of these was found where a property that reads like a promise fails. The code is
modelled as it is; a lemma shows the property failing on a concrete input or run, and
another gives the exact condition under which it holds.

* A first open while a character is on the line resets the transmit index. It can leave the
  line low for good (`BitbangHalves.ReopenMidFrameSticksLow`), and a run keeps the idle level
  exactly if each first open in it finds the line high (`IdleHighIffReopenedHigh`). Even then
  the rest of the character is never driven nor counted; only an open between characters is
  harmless (`ReopenCutsCharacter`).
* The same open resets the receiver in the middle of a frame while its sample timer goes on.
  The frame is lost without being counted, and a low level behind the open begins a frame
  that is not there (`BitbangReopen.ReopenCutsReception`, which also says that only an open
  between frames is harmless); a byte that was never sent can be accepted that way
  (`ReopenReceivesWrongByte`).
* A `period_ms` above 1000 when the module is loaded is refused with a warning only, and the
  device is left without a bit period: `BitbangDevice.BitbangUart.constructor` has one if and
  only if the value is from 1 to 1000.
* The familiar skew limits are not enough once callbacks run late; the third bound guards
  the start sample (`BitbangSkew.ThirdBoundIsNeeded`, `StartMissed`, `FaithfulIffBound`).
* A stop request makes the SPI receive thread queue an unfinished slot
  (`SpiSystem.StopQueuesPartialPacket`). The queue is the split of the words read exactly if
  the slot just queued was complete (`QueuedIsSplitIffComplete`), and runs without a stop
  request deliver whole packets only.
* `remove_emulation_prevention` keeps a final 03 unless two zeros stand before it
  (`H264Emulation.OddTailKeepsMark`), so a payload comes back from the standard's escaping
  exactly when it ends in an even number of zero bytes (`PayloadRoundTrip`). Every run of
  two-byte cabac_zero_words qualifies.
* `find_start_codes` finds no code in the last three bytes (`H264AnnexB.CodeAtEndIsUnseen`),
  and reads a zero that ends a NAL before a three-byte code as part of a four-byte code
  (`FinalZeroIsLost`); the NAL lists that come back are exactly those of `Survives`
  (`ByteStreamRoundTrip`).
* The CABAC patch can create a start code (`H264Patch.FourZerosBecomeCode`), exactly when an
  IDR NAL ends in three zero bytes with data behind it, or in four at the end of the file
  (`PatchKeepsFraming`). Patching such a stream again can change it further
  (`H264PatchTwice.SecondPatchGoesOn`); twice is once if and only if what is left of each
  such NAL is one byte long or ends in an odd byte (`PatchTwiceIff`).
* Fifteen missing packets look like a repeat and sixteen like none
  (`TsContinuity.LongGapsAreMissed`); the LOST values count the missing packets exactly while
  no gap exceeds fourteen (`LostIsMissing`).
* `process` respects the frame limit (`TsPes.LimitHolds`), `finish` does not: a file of five
  packets prints three rows with a limit of one (`TsOverLimit.FinishIgnoresLimit`). The whole
  program stays within its limit exactly if the rows of the scan and the printable entries
  open at its end do (`TsPes.Analyze`).
* `find_packet` accepts the last 188 bytes of a file unchecked: from a file without any sync
  byte the extractor writes 184 bytes (`TsFind.GarbageIsExtracted`). It takes the packets the
  analyzer takes exactly if none is taken that way (`SamePacketsIff`).
* Without a reader the SPI receive thread gives up, exactly when it has queued 17407 packets
  (`SpiUnread.UnreadThreadEnds`).
* Keys are stored in lower case but looked up as given: "Key" is not found after "Key=1"
  (`IniStream.MixedCaseKeyIsLost`). A lookup agrees with the one in lower case if and only if
  the key is in lower case or not stored at all (`KeysAreLookedUpAsGiven`); section names may
  be given in any case.

## Model

| member | source | states |
|---|---|---|
| BitbangFrame.ParityCountsOnes | openwrt/kernel/soft_uart/bitbang/uart.c:186-194 | the three-step xor fold is high exactly for an odd number of ones among the eight bits |
| BitbangFrame.ShiftInRecovers | openwrt/kernel/soft_uart/bitbang/uart.c:253 | eight shifts store the eight sampled levels, least significant first, whatever the register held; the bits of d give back d |
| BitbangFrame.ShiftInAssembles | openwrt/kernel/soft_uart/bitbang/uart.c:309-312 | after m shifts the top m bits of the register are the m levels seen so far |
| BitbangFrame.LevelIsFrame | openwrt/kernel/soft_uart/bitbang/uart.c:209-241 | the level driven at each of the twelve positions is the start, data, parity or stop bit of the frame |
| BitbangDevice.BitbangUart.constructor | openwrt/kernel/soft_uart/bitbang/uart.c:383-433 | a probed device is zeroed and drives its line high; it has a bit period if and only if the value given is from 1 to 1000 ms, and none otherwise |
| BitbangDevice.BitbangUart.SetPeriod | openwrt/kernel/soft_uart/bitbang/uart.c:369-381 | periods of 1 to 1000 ms are taken, others ignored, and half the period is exact; a legal value also repairs a device without a period |
| BitbangDevice.BitbangUart.Open | openwrt/kernel/soft_uart/bitbang/uart.c:96-116 | the first open empties the receive queue, resets both bit indices and enables the interrupt; later opens only count, up to INT_MAX; running timers and the line level are not touched |
| BitbangDevice.BitbangUart.Close | openwrt/kernel/soft_uart/bitbang/uart.c:118-126 | the last close disables the interrupt and empties the receive queue; earlier closes only count |
| BitbangDevice.BitbangUart.TxCopy | openwrt/kernel/soft_uart/bitbang/uart.c:85-87 | a write queues the leading bytes behind what was queued: all of them, or as many as fill the queue |
| BitbangDevice.BitbangUart.TxKick | openwrt/kernel/soft_uart/bitbang/uart.c:90-92 | a write that queued something starts an inactive bit timer one period ahead and leaves a running one alone |
| BitbangDevice.BitbangUart.ReadRx | openwrt/kernel/soft_uart/bitbang/uart.c:62-67 | a read takes the oldest bytes, as many as asked for or present, and leaves the rest |
| BitbangDevice.BitbangUart.TxTimerCb | openwrt/kernel/soft_uart/bitbang/uart.c:197-249 | the in-place callback carries out the transmit step: state, level driven, and restart on the timer's own grid |
| BitbangDevice.BitbangUart.RxIrqHandler | openwrt/kernel/soft_uart/bitbang/uart.c:148-174 | a low level arms the sample timer half a period ahead when the receiver is between frames; otherwise nothing changes |
| BitbangDevice.BitbangUart.QueueRx | openwrt/kernel/soft_uart/bitbang/uart.c:289-295 | the new byte joins the queue, which first loses its oldest byte if it is full |
| BitbangDevice.BitbangUart.StopBit | openwrt/kernel/soft_uart/bitbang/uart.c:283-307 | the stop sample accepts the byte (dropping the oldest of a full queue) or counts a parity error for a parity that does not fit and a stop error for a low level |
| BitbangDevice.BitbangUart.RxTimerCb | openwrt/kernel/soft_uart/bitbang/uart.c:254-322 | the in-place callback carries out the receive step for the level sampled, and restarts on the grid |
| BitbangTimers.ForwardWithinPeriod | openwrt/kernel/soft_uart/bitbang/uart.c:244-246 | for a callback less than a period late, one period on is the one and only place hrtimer_forward can put its timer |
| BitbangTimers.ForwardIsHrtimer | openwrt/kernel/soft_uart/bitbang/uart.c:244-246 | the device's function yields the first time on the timer's grid behind now |
| BitbangTimers.TimersAreForwarded | openwrt/kernel/soft_uart/bitbang/uart.c:317-319 | in the link every restarted timer, sender's or receiver's, is where hrtimer_forward puts it |
| BitbangHalves.TxNeverStalls | openwrt/kernel/soft_uart/bitbang/uart.c:70-94 | in every run of writes, late timer starts, callbacks and reopens, the index guard is never hit and a stopped timer with no writer pending means an idle, empty transmitter |
| BitbangHalves.IdleHighUnlessReopened | openwrt/kernel/soft_uart/bitbang/uart.c:197-249 | without a reopen the line is high between characters in every run |
| BitbangHalves.IdleHighIffReopenedHigh | openwrt/kernel/soft_uart/bitbang/uart.c:102-108 | a run is idle-high throughout if and only if each first open in it finds the line high |
| BitbangHalves.DrainsFromAnywhere | openwrt/kernel/soft_uart/bitbang/uart.c:197-249 | a started transmitter at any place in a character drives exactly the rest of its frame and then the queued frames, and counts them all |
| BitbangHalves.ReopenCutsCharacter | openwrt/kernel/soft_uart/bitbang/uart.c:102-108 | after a first open only the queued frames are driven and counted; this equals what would have been sent without it if and only if no character was on the line |
| BitbangHalves.ReopenMidFrameSticksLow | openwrt/kernel/soft_uart/bitbang/uart.c:102-108 | one zero byte cut by a reopen leaves the line low with the timer stopped and the byte not counted |
| BitbangReopen.RxNeverStalls | openwrt/kernel/soft_uart/bitbang/uart.c:148-322 | over all samples, edges and reopens the receive index stays in range and the sample timer runs in the middle of a frame |
| BitbangReopen.ReopenCutsReception | openwrt/kernel/soft_uart/bitbang/uart.c:102-108 | a first open in the middle of a frame leaves that frame neither accepted nor counted as a parity or stop error, and the receiver stopped with a start error or inside a frame that is not there; apart from the emptied queue it changes nothing if and only if no frame was being received |
| BitbangReopen.ReopenReceivesWrongByte | openwrt/kernel/soft_uart/bitbang/uart.c:102-108 | an open before the last data bit of 00 makes the receiver accept FE |
| BitbangHalves.FrameTicks | openwrt/kernel/soft_uart/bitbang/uart.c:208-242 | where the transmitter stands after each of the twelve callbacks of one character |
| BitbangHalves.FrameDriven | openwrt/kernel/soft_uart/bitbang/uart.c:208-242 | the levels driven by the callbacks of one character are the prefix of its frame |
| BitbangHalves.DrainsExactly | openwrt/kernel/soft_uart/bitbang/uart.c:197-249 | with n bytes queued and no further writes the timer stops after exactly 12n + 1 callbacks, not before, having driven exactly the n frames in order |
| BitbangHalves.RxAccounting | openwrt/kernel/soft_uart/bitbang/uart.c:283-307 | over every sequence of samples and reads the queue holds the most recent unread accepted bytes, at most 1024, and every completed frame is accepted or counted by at least one error counter |
| BitbangHalves.RxStepAccounting | openwrt/kernel/soft_uart/bitbang/uart.c:47-68 | each sample or read keeps that accounting |
| BitbangHalves.FrameOutcome | openwrt/kernel/soft_uart/bitbang/uart.c:267-313 | eleven samples from idle store the sampled data bits, and the byte is queued exactly when the stop level is high and the parity level fits; the stop counter rises exactly for a low stop level, the parity counter exactly for an odd number of high levels among data and parity, the start counter never |
| BitbangHalves.OddFlipsRejected | openwrt/kernel/soft_uart/bitbang/uart.c:284-304 | with any flips among the nine data and parity bits a frame is accepted if and only if their number is even and the stop level is high |
| BitbangRoundTrip.SampleWindow | openwrt/kernel/soft_uart/bitbang/uart.c:169 | inside the bound, sample k of a frame falls strictly inside bit k on the wire however late the callbacks are |
| BitbangRoundTrip.SampleSeesItsBit | openwrt/kernel/soft_uart/bitbang/uart.c:254-322 | in every reachable state of a frame the level sampled is the level of the bit the sample is meant for |
| BitbangRoundTrip.GoodStep | openwrt/kernel/soft_uart/bitbang/uart.c:148-322 | each event of the link keeps sender and receiver in step: falling edges inside a byte are ignored and the receiver is idle before the next start edge |
| BitbangRoundTrip.GoodRun | openwrt/kernel/soft_uart/bitbang/uart.c:148-322 | so does every run |
| BitbangRoundTrip.BoundImpliesFaithful | openwrt/kernel/soft_uart/bitbang/uart.c:148-322 | inside the bound every run accepts a prefix of the bytes written, counts no error, and has accepted all of them once the link is quiet |
| BitbangSkew.DriverRunsEnd | openwrt/kernel/soft_uart/bitbang/uart.c:197-322 | when nobody writes, every run of callbacks is shorter than the work left |
| BitbangSkew.RoundTrip | openwrt/kernel/soft_uart/bitbang/uart.c:148-322 | from every state reached inside the bound the callbacks can go on until the link is quiet and everything written has been accepted |
| BitbangSkew.DoomedRun | openwrt/kernel/soft_uart/bitbang/uart.c:263-307 | if one of the first two bounds fails, a schedule of latencies makes the link lose or spoil a zero byte |
| BitbangSkew.StartMissed | openwrt/kernel/soft_uart/bitbang/uart.c:269-278 | if the third bound fails, the start sample of 0xFF can see the first data bit and count a start error |
| BitbangSkew.OutsideIsUnfaithful | openwrt/kernel/soft_uart/bitbang/uart.c:148-322 | outside the bound some run from an idle link is incorrect |
| BitbangSkew.FaithfulIffBound | openwrt/kernel/soft_uart/bitbang/uart.c:148-322 | every run of the link is correct if and only if the three bounds hold |
| BitbangSkew.ThirdBoundIsNeeded | openwrt/kernel/soft_uart/bitbang/uart.c:148-322 | with pr = 0.98 pt and latency 0.2 pt the first two bounds hold and the link is still not correct on every run |
| BitbangSkew.PromptBound | openwrt/kernel/soft_uart/bitbang/uart.c:148-322 | with prompt callbacks the bound is 20pt < 21pr and 19pr < 20pt |
| SpiPacketizer.SplitIsValid | linux/kernel/slave-spi-driver/spi-slave-main.c:136-160 | feeding words one at a time cuts the stream into 47-word packets that begin with sync byte 0x47, single skipped words without it, and an unfinished packet, losing and inventing no word |
| SpiPacketizer.SplitIsUnique | linux/kernel/slave-spi-driver/spi-slave-main.c:136-160 | a stream has only one such split |
| SpiPacketizer.PaketizerFeeds | linux/kernel/slave-spi-driver/spi-slave-main.c:136-160 | the packetizer over a slot that may hold stale words does exactly one step of that split, and its return code tells which |
| SpiPacketizer.WordsConserved | linux/kernel/slave-spi-driver/spi-slave-main.c:201-217 | words read = 47 per packet + words skipped + words of the unfinished packet |
| SpiRing.MaskIsRemainder | linux/kernel/slave-spi-driver/spi-slave-main.c:91-93 | masking an index with RX_RING_PACKETS - 1 is the remainder the model uses |
| SpiRing.FreeFromFinds | linux/kernel/slave-spi-driver/spi-slave-main.c:102-109 | the search yields the first slot whose flag is down, or -1 exactly when all are up |
| SpiRing.FreeSlotExists | linux/kernel/slave-spi-driver/spi-slave-main.c:180-184 | in a consistent ring the search always finds a slot, and one that is not queued: "No free space" cannot happen |
| SpiRing.RemoveWindow | linux/kernel/slave-spi-driver/spi-slave-main.c:98 | RXRING_REMOVE takes the oldest entry off the queued window and keeps slots distinct and flags exact |
| SpiRing.InsertWindow | linux/kernel/slave-spi-driver/spi-slave-main.c:99 | RXRING_INSERT of an unqueued slot appends it to the window and keeps slots distinct and flags exact |
| SpiRing.ClearedWindow | linux/kernel/slave-spi-driver/spi-slave-main.c:100 | RXRING_CLEAR leaves an empty, consistent ring |
| SpiSystem.ChosenIs | linux/kernel/slave-spi-driver/spi-slave-main.c:170-184 | in every reachable state the slot chosen is the first free one once there is room, and it is not queued |
| SpiSystem.ChooseKeeps | linux/kernel/slave-spi-driver/spi-slave-main.c:170-184 | the first locked section, with or without dropping the oldest packet, keeps all invariants and always ends up holding a free slot |
| SpiSystem.FillingDisturbsNothing | linux/kernel/slave-spi-driver/spi-slave-main.c:192-218 | words written into the held slot without the lock leave every queued packet as it was inserted |
| SpiSystem.ReceiveSplits | linux/kernel/slave-spi-driver/spi-slave-main.c:201-217 | the packets this thread has queued or finished are the split of the words it has read, and the unfinished packet stands in the held slot |
| SpiSystem.ReceiveAccounts | linux/kernel/slave-spi-driver/spi-slave-main.c:201-217 | between statistics resets dwords = 47 pkt_ok + skip + words of the unfinished packet |
| SpiSystem.PublishKeeps | linux/kernel/slave-spi-driver/spi-slave-main.c:221-225 | queueing the held slot keeps all invariants; there is always room |
| SpiSystem.TransferKeeps | linux/kernel/slave-spi-driver/spi-slave-main.c:335-346 | so does handing the oldest packet to a reader; the "Bad RX ring" path is not taken |
| SpiSystem.WipeKeeps | linux/kernel/slave-spi-driver/spi-slave-main.c:298-300 | so does a clear, also while a slot is being filled |
| SpiSystem.StepKeeps | linux/kernel/slave-spi-driver/spi-slave-main.c:162-346 | every step of thread, reader or reset keeps all invariants |
| SpiSystem.SafeForever | linux/kernel/slave-spi-driver/spi-slave-main.c:162-346 | in every reachable state the queued slots are distinct, flags are up exactly for queued slots, the slot being filled is not queued, queued packets are intact, all accounts balance and no error path was taken |
| SpiSystem.DeliveryIsFifo | linux/kernel/slave-spi-driver/spi-slave-main.c:321-346 | readers get, byte-swapped and in order, a subsequence of the packets inserted; inserted = delivered + dropped + cleared + still queued |
| SpiSystem.ReadersGetWholePackets | linux/kernel/slave-spi-driver/spi-slave-main.c:194-225 | without a stop request every packet a reader gets is 47 words beginning with a sync word once swapped back |
| SpiSystem.QueuedIsSplitIffComplete | linux/kernel/slave-spi-driver/spi-slave-main.c:194-225 | after queueing, this thread's packets are the split of its words if and only if the slot was complete; an unfinished slot holds the words read so far in front of stale ones |
| SpiSystem.StopQueuesPartialPacket | linux/kernel/slave-spi-driver/spi-slave-main.c:194-222 | with a stop request the unfinished slot is queued |
| SpiUnread.UnreadThreadEnds | linux/kernel/slave-spi-driver/spi-slave-main.c:186-190 | without a reader the thread never queues more than 17407 packets and ends exactly there; lost packets, queue length and high-water mark are what the number queued says |
| SpiUnread.StepUnread | linux/kernel/slave-spi-driver/spi-slave-main.c:162-228 | each step of the thread keeps that account |
| SpiSystem.SwapTwice | linux/kernel/slave-spi-driver/spi-slave-main.c:255-264 | swapping the bytes of a packet twice gives it back |
| SpiBytes.SwapTurnsRound | linux/kernel/slave-spi-driver/spi-slave-main.c:262 | byte i of the swapped word is byte 3 - i of the word, by shift and mask |
| SpiBytes.SwappedReadsInOrder | linux/kernel/slave-spi-driver/spi-slave-main.c:255-264 | a swapped packet read low byte first is the packet read high byte first |
| SpiBytes.DeliveredBytes | linux/kernel/slave-spi-driver/spi-slave-main.c:335-346 | on every run each packet a reader got is, byte by byte in the order of the line, a packet that was queued, oldest first |
| SpiBytes.ReadersGetSyncFirst | linux/kernel/slave-spi-driver/spi-slave-main.c:194-225 | without a stop request a reader always gets 188 bytes that begin with 0x47 |
| SpiDriver.SpiImx.RemoveTail | linux/kernel/slave-spi-driver/spi-slave-main.c:98 | the macro over the one shared integer array is the removal of the ring model |
| SpiDriver.SpiImx.InsertHead | linux/kernel/slave-spi-driver/spi-slave-main.c:99 | the macro over the one shared integer array is the insertion of the ring model |
| SpiDriver.SpiImx.ClearRing | linux/kernel/slave-spi-driver/spi-slave-main.c:100 | both halves of the array are zeroed |
| SpiDriver.SpiImx.GetFreeIdx | linux/kernel/slave-spi-driver/spi-slave-main.c:102-109 | the loop over the flag half finds the first free slot |
| SpiDriver.SpiImx.ChooseLocked | linux/kernel/slave-spi-driver/spi-slave-main.c:170-178 | from a consistent ring: room is made exactly when none was left, the lost counter follows, and the slot returned is in range and not queued |
| SpiDriver.SpiImx.Packetize | linux/kernel/slave-spi-driver/spi-slave-main.c:136-160 | one word into the slot's part of the packet memory; all other slots stay |
| SpiDriver.SpiImx.CountWord | linux/kernel/slave-spi-driver/spi-slave-main.c:201-217 | slot and fill count are the packetizer's, other slots stay, and dwords, pkt_ok and skip follow the return code |
| SpiDriver.SpiImx.TakeWord | linux/kernel/slave-spi-driver/spi-slave-main.c:201-217 | slot contents, fill count and the counters dwords, pkt_ok and skip follow the stream split |
| SpiDriver.SpiImx.DrainFifo | linux/kernel/slave-spi-driver/spi-slave-main.c:201-218 | the inner loop takes words until a packet is complete or none is left, and slot and counters follow the split of the words taken |
| SpiDriver.SpiImx.PublishLocked | linux/kernel/slave-spi-driver/spi-slave-main.c:221-225 | the slot joins the queue at its end, the ring stays consistent and the high-water mark follows |
| SpiDriver.SpiImx.MemcpyBswapPacket | linux/kernel/slave-spi-driver/spi-slave-main.c:255-264 | the destination holds the 47 words with their bytes reversed: read low byte first it is the slot read high byte first |
| SpiDriver.SpiImx.TransferLocked | linux/kernel/slave-spi-driver/spi-slave-main.c:335-346 | a reader gets the oldest slot, whose index is valid, byte by byte in the order of the line, and the ring loses exactly that entry and stays consistent |
| SpiDriver.SpiImx.ChooseStep | linux/kernel/slave-spi-driver/spi-slave-main.c:170-178 | the first locked section is the choosing step of the system: memory and chosen slot are those of its result |
| SpiDriver.SpiImx.ReceiveStep | linux/kernel/slave-spi-driver/spi-slave-main.c:201-217 | a word taken is the receiving step: memory, fill count and completion are those of its result |
| SpiDriver.SpiImx.PublishStep | linux/kernel/slave-spi-driver/spi-slave-main.c:221-225 | the second locked section is the publishing step |
| SpiDriver.SpiImx.TransferStep | linux/kernel/slave-spi-driver/spi-slave-main.c:335-346 | the reader's locked section is the transfer step, and the reader's buffer holds the packet that step delivers |
| SpiDriver.SpiImx.ClearStep | linux/kernel/slave-spi-driver/spi-slave-main.c:298-300 | a clear is the clearing step |
| SpiDriver.ChosenMemory | linux/kernel/slave-spi-driver/spi-slave-main.c:170-178 | choosing drops the oldest entry exactly if no room was left, counts it, leaves all packets alone and takes the first free slot |
| SpiDriver.WordTaken | linux/kernel/slave-spi-driver/spi-slave-main.c:201-217 | return code 1 means one packet more in the split, code -3 one skipped word more, anything else neither |
| H264StartCodes.FindStartCodes | video/h264nal.py:4-14 | the scan loop reports exactly the codes of the specification function |
| H264StartCodes.ScanIsLayout | video/h264nal.py:4-14 | that list is the only one in which every reported code is seen at its place and nothing is seen between codes |
| H264StartCodes.SliceNals | video/h264nal.py:39-51 | the slicing loop yields the non-empty pieces between codes, in order |
| H264AnnexB.SeenInside | video/h264nal.py:6-14 | whether the scan stops inside a NAL can be told from the NAL and the kind of code behind it |
| H264AnnexB.KeptInOrder | video/h264nal.py:43-51 | NALs the scan keeps whole are sliced out in order |
| H264AnnexB.KeptAtMost | video/h264nal.py:43-51 | slicing never yields more bytes than the NALs hold, and fewer if one is cut |
| H264AnnexB.ByteStreamRoundTrip | video/h264nal.py:4-51 | for every list of NALs joined by any mix of 3- and 4-byte codes, scan and slicing give the list back if and only if no NAL is empty and none is cut |
| H264AnnexB.FinalZeroIsLost | video/h264nal.py:4-14 | of a NAL that ends in 00 before a three-byte code the zero is lost |
| H264AnnexB.CodeAtEndIsUnseen | video/h264nal.py:6 | a three-byte code that ends the data is left in the last NAL |
| H264AnnexB.CleanNalsSurvive | video/h264nal.py:4-51 | non-empty NALs without 000000 or 000001 and without a final zero always come back |
| H264Emulation.RemoveEmulationPrevention | video/h264nal.py:16-26 | the loop computes the left-to-right removal of 03 behind two zeros |
| H264Emulation.UnescapeEscape | video/h264nal.py:16-26 | removal undoes the escaping of every payload, in any zero context; a final 03 goes exactly when two zeros precede it |
| H264Emulation.EscapeRoundTrip | video/h264nal.py:16-26 | every payload comes back from escaping without the final 03 |
| H264Emulation.PayloadRoundTrip | video/h264nal.py:16-26 | with the final 03 of section 7.4.1 a payload comes back if and only if it ends in an even number of zeros |
| H264Emulation.OddTailKeepsMark | video/h264nal.py:16-26 | the payload 01 00 comes back as 01 00 03 |
| H264Emulation.EscapedIsGuarded | video/h264nal.py:4-26 | an escaped payload, also behind its header byte, has nothing below 03 behind two zeros, so it holds no start code |
| H264Emulation.StreamRoundTrip | video/h264nal.py:39-56 | escape, join, scan, slice, unescape: the NALs always come back as sent, the payloads if and only if each ends in an even number of zeros |
| H264Emulation.FindRbspTrailingBits | video/h264nal.py:28-37 | the bit-by-bit search from the end finds the last non-zero byte, and nothing exactly for all-zero payloads |
| H264Patch.PatchIdrAlignment | video/h264cabac.py:16-46 | the in-place loop computes the specification function of the patch |
| H264Patch.PatchNal | video/h264cabac.py:20-39 | one pass changes the last byte of an IDR NAL longer than one byte and nothing else |
| H264Patch.PatchTouches | video/h264cabac.py:16-46 | the length stays; exactly the last bytes of IDR NALs longer than one byte get bit 0 set |
| H264Patch.IdrBits | video/h264cabac.py:27-34 | a NAL is an IDR slice to be patched if and only if the five low bits of its first byte are 00101 and it has two bytes or more |
| H264Patch.PatchBits | video/h264cabac.py:36-39 | bit by bit, only the lowest bit of a touched byte changes, and it is set |
| H264Patch.PatchKeepsFraming | video/h264cabac.py:4-46 | the patched stream has the same start codes if and only if no IDR NAL ends in three zeros with data behind it or in four |
| H264Patch.FourZerosBecomeCode | video/h264cabac.py:16-46 | an IDR NAL that ends the file in four zeros is cut in two by the patch |
| H264Patch.NoTrailingZeroIsSafe | video/h264cabac.py:4-46 | streams whose NALs never end in 00 are safe |
| H264Patch.PatchTwice | video/h264cabac.py:16-46 | on safe streams the patch is idempotent |
| H264PatchTwice.UnpatchedIfOdd | video/h264cabac.py:20-39 | the patch changes nothing if and only if every IDR NAL longer than one byte ends in an odd byte |
| H264PatchTwice.FragileNal | video/h264cabac.py:4-39 | how a NAL whose patch makes a code is cut, and when what is left is not patched again |
| H264PatchTwice.SecondPatchFrom | video/h264cabac.py:16-46 | from any NAL on, the second patch changes nothing if and only if all NALs settle |
| H264PatchTwice.PatchTwiceIff | video/h264cabac.py:16-46 | on any stream, patching twice is patching once if and only if each NAL whose patch makes a code is left one byte long or with an odd last byte |
| H264PatchTwice.SecondPatchGoesOn | video/h264cabac.py:16-46 | for an IDR NAL 65 22 00 00 00 before a code the second patch sets the 22 |
| TsTimestamps.PtsOrIsSum | python/mpeg-ts/ts_pts_check.py:393-398 | the shifted fields do not overlap, so or is sum |
| TsTimestamps.PtsRoundTrip | python/mpeg-ts/ts_pts_check.py:391-398 | every value below 2^33 is read back from the five-byte PTS layout of section 2.4.3.7, whatever the prefix |
| TsTimestamps.PtsLayoutUnique | python/mpeg-ts/ts_pts_check.py:391-398 | the result is below 2^33, and five bytes are its layout exactly when the three marker bits are set |
| TsTimestamps.PcrOrIsSum | python/mpeg-ts/ts_pts_check.py:290-299 | the same for the clock fields |
| TsTimestamps.PcrRoundTrip | python/mpeg-ts/ts_pts_check.py:285-301 | every clock value below 300 times 2^33 is read back from the six-byte layout of section 2.4.3.5 |
| TsContinuity.ScanFile | python/mpeg-ts/tscc.py:24-64 | the file loop reports what the step function says for the whole packets of the file, one error per report |
| TsJumps.ScanPrintsJumps | python/mpeg-ts/tscc.py:48-63 | the lines printed are those of the jumps between successive payload packets of a PID, each once, in file order, with packet number, both counters and status |
| TsJumps.JumpIs | python/mpeg-ts/tscc.py:54-58 | a counter that stands still is a repeat, any other jump names how many packets lead from one counter to the other |
| TsContinuity.ScanIsPerPid | python/mpeg-ts/tscc.py:51-62 | however PIDs interleave, the LOST values of one depend on its own payload packets alone |
| TsContinuity.LossExact | python/mpeg-ts/tscc.py:52-59 | over a trace carrying a counter mod 16 the losses never exceed the missing packets, and equal them if and only if no unmarked gap exceeds fourteen |
| TsContinuity.LostIsMissing | python/mpeg-ts/tscc.py:28-63 | the same for what the scan prints for a PID of any file |
| TsContinuity.LongGapsAreMissed | python/mpeg-ts/tscc.py:51-62 | with fifteen or sixteen packets missing nothing is reported as lost |
| TsContinuity.ReceivedPlusLost | python/mpeg-ts/tscc.py:28-63 | without marks and repeats, received plus LOST is the range of the sender's counter |
| TsContinuity.ChecksAgree | python/mpeg-ts/ts_extract.py:46-57 | scanner and extractor complain about the same jumps and print the same number, except that fifteen is called a repeat by the scanner |
| TsExtract.ExtractAll | python/mpeg-ts/ts_extract.py:100-118 | over all packets found, the output is the payload of the PID's packets, packets and packets written are counted, the frame size is what was written since the last frame began, and the numbers printed are those of the PID's counters |
| TsExtract.ExtractorCountsLikeScanner | python/mpeg-ts/ts_extract.py:46-57 | if the PID's packets all carry payload and no mark, the numbers printed in such a run add up to the scanner's LOST values for the PID |
| TsExtract.ExtractPid.CheckContinuity | python/mpeg-ts/ts_extract.py:46-57 | the last counter is remembered and a number is printed exactly for a broken sequence |
| TsExtract.ExtractPid.Extract | python/mpeg-ts/ts_extract.py:59-85 | the payload behind header, adaptation field or the fixed PES skip is appended, and the frame size counts it |
| TsExtract.ExtractPid.Write | python/mpeg-ts/ts_extract.py:87-90 | the byte counter is always the number of bytes written |
| TsExtract.ExtractPid.Call | python/mpeg-ts/ts_extract.py:32-40 | packets of other PIDs change nothing; packets of this PID are checked, written and counted, and the frame size follows |
| TsFind.FindPacket | python/mpeg-ts/ts_extract.py:120-132 | the first position with two sync bytes 188 apart, or the last 188 bytes; -1 exactly if fewer are left |
| TsFind.Process | python/mpeg-ts/ts_extract.py:100-118 | the packets handed over are those of the specified positions, in order |
| TsFind.ExtractFile | python/mpeg-ts/ts_extract.py:100-133 | over a whole file the output is the payload of the PID's packets among those found |
| TsFind.FoundAgainstPositions | python/mpeg-ts/ts_extract.py:120-133 | the extractor finds the packets the analyzer takes and, where these leave the last 188 bytes to themselves, those as well, unchecked |
| TsFind.SamePacketsIff | python/mpeg-ts/ts_extract.py:120-133 | the two programs take the same packets if and only if the last 188 bytes are not taken without their sync byte |
| TsFind.GarbageIsExtracted | python/mpeg-ts/ts_extract.py:129-133 | from 188 bytes without a sync byte, in which the analyzer finds nothing, the extractor writes 184 |
| TsTables.ParsePat | python/mpeg-ts/ts_pts_check.py:138-175 | for every payload the loop ends, stays inside the payload and yields the specified program map PID |
| TsTables.ParsePmt | python/mpeg-ts/ts_pts_check.py:177-236 | for every payload the loop ends, stays inside the payload and yields the specified PCR PID and streams |
| TsTables.PatPidInRange | python/mpeg-ts/ts_pts_check.py:166-171 | a recorded program map PID is below 8192 |
| TsTables.PmtPidsInRange | python/mpeg-ts/ts_pts_check.py:214-228 | recorded stream PIDs are below 8192 |
| TsTables.PatIsRead | python/mpeg-ts/ts_pts_check.py:138-175 | any payload that carries a PAT of section 2.4.4.3 is read as the PID of its first program other than number zero |
| TsTables.NoTableElse | python/mpeg-ts/ts_pts_check.py:138-149 | no PAT is read without a unit start, from a payload shorter than its header, or from another table id |
| TsTables.PmtIsRead | python/mpeg-ts/ts_pts_check.py:177-236 | any payload that carries a PMT of section 2.4.4.8 is read as its PCR PID and all its streams in order, descriptors skipped |
| TsTables.NoMapElse | python/mpeg-ts/ts_pts_check.py:177-188 | no PMT is read without a unit start, from a payload shorter than its header, or from another table id |
| TsAnalyzer.ParsePesKeepsGood | python/mpeg-ts/ts_pts_check.py:238-283 | a PES payload keeps the open entries among the known streams |
| TsAnalyzer.PacketKeepsGood | python/mpeg-ts/ts_pts_check.py:95-136 | any 188 bytes keep recorded PIDs below 8192 and open entries among the known streams, forget no stream and print at most one row |
| TsAnalyzer.TsAnalyzer.ClosePes | python/mpeg-ts/ts_pts_check.py:327-389 | closing a PID's entry prints its row exactly when it has a time stamp and a known kind, and updates clocks and count |
| TsAnalyzer.TsAnalyzer.HandlePes | python/mpeg-ts/ts_pts_check.py:238-283 | the method carries out the PES step, early returns included |
| TsAnalyzer.TsAnalyzer.HandlePat | python/mpeg-ts/ts_pts_check.py:138-175 | only the program map PID can change |
| TsAnalyzer.TsAnalyzer.HandlePmt | python/mpeg-ts/ts_pts_check.py:198-236 | the PCR PID is replaced and the streams are added one by one |
| TsAnalyzer.LastEntryDecides | python/mpeg-ts/ts_pts_check.py:207-236 | after a program map a PID has the kind its last entry gives it, or keeps what it had |
| TsAnalyzer.TsAnalyzer.HandlePcr | python/mpeg-ts/ts_pts_check.py:285-325 | the first clock value and the time origin are set once |
| TsAnalyzer.TsAnalyzer.HandleAdaptation | python/mpeg-ts/ts_pts_check.py:110-122 | a clock value is taken exactly if the field is long enough, the PID is the PCR PID and the flag is set |
| TsAnalyzer.TsAnalyzer.Dispatch | python/mpeg-ts/ts_pts_check.py:127-136 | a payload goes to the one parser its PID stands for, or nowhere |
| TsAnalyzer.TsAnalyzer.HandlePacket | python/mpeg-ts/ts_pts_check.py:95-136 | for every packet and any state the method is the packet step, and the row count follows |
| TsAnalyzer.TsAnalyzer.Handle | python/mpeg-ts/ts_pts_check.py:95-136 | for every packet and reachable state the method is the packet step and keeps the invariant |
| TsAnalyzer.TsAnalyzer.Finish | python/mpeg-ts/ts_pts_check.py:400-402 | the open entries are finished each once in some order, none stays open, and as many rows are added as entries had a time stamp and a known kind |
| TsAnalyzer.FinishAllCounts | python/mpeg-ts/ts_pts_check.py:400-402 | finishing any of the open entries closes exactly those and adds one row for each that is printable |
| TsPes.ParseIsLocal | python/mpeg-ts/ts_pts_check.py:238-283 | a PES payload changes only its own PID's entry and rows |
| TsPes.PacketIsLocal | python/mpeg-ts/ts_pts_check.py:95-136 | so does a packet |
| TsPes.RunIsLocal | python/mpeg-ts/ts_pts_check.py:95-136 | what a run leaves for a PID depends only on the payloads of that PID |
| TsPes.UnitsAreCorrect | python/mpeg-ts/ts_pts_check.py:238-283 | the entry open for a PID is the unit begun at its last start, and the rows are its completed units |
| TsPes.PesAccounting | python/mpeg-ts/ts_pts_check.py:238-389 | on every run the open entry's size is all payload bytes since the start packet less its header, and exactly the completed, stamped units of known kind were printed, in order |
| TsPes.FileAccounting | python/mpeg-ts/ts_pts_check.py:45-69 | the same after scanning any file with any limit; packets are left over only if the limit was reached |
| TsPes.FinishAllIsLocal | python/mpeg-ts/ts_pts_check.py:400-402 | whatever the order, finishing adds for each PID the row of its own open entry, if that is printable, and no other |
| TsPes.Analyze | python/mpeg-ts/ts_pts_check.py:463-466 | scan and closing call together: final state, number of rows, and the frame limit is kept if and only if the rows of the scan and the printable open entries fit into it |
| TsPes.FileRows | python/mpeg-ts/ts_pts_check.py:463-466 | what is printed for a PID in the end is every completed unit of the packets scanned, in order, and last its open unit, each if stamped and of known kind |
| TsPes.RunKeepsGood | python/mpeg-ts/ts_pts_check.py:95-136 | on every run open entries belong to known streams and PIDs are below 8192 |
| TsPes.PositionsAreGreedy | python/mpeg-ts/ts_pts_check.py:49-64 | packets taken never overlap and nothing acceptable is passed over between them |
| TsPes.TakenInSync | python/mpeg-ts/ts_pts_check.py:49-64 | a packet taken begins with 0x47 and another 0x47 stands 188 bytes on, unless the file ends there |
| TsPes.Resynchronises | python/mpeg-ts/ts_pts_check.py:49-64 | behind garbage in which nothing is acceptable, all packets of a synchronous stream are found and nothing else |
| TsPes.Process | python/mpeg-ts/ts_pts_check.py:45-69 | the scan loop over any file leaves the analyzer in the state of the specified scan |
| TsPes.LimitHolds | python/mpeg-ts/ts_pts_check.py:66-67 | with a positive limit the scan never prints more rows than the limit |
| TsOverLimit.ScanReachesLimit | python/mpeg-ts/ts_pts_check.py:45-69 | a file of PAT, PMT and three PES starts is scanned, with limit 1, to one row and two open units |
| TsOverLimit.FinishIgnoresLimit | python/mpeg-ts/ts_pts_check.py:400-402 | the closing call then prints two more rows, in whatever order |
| TsLayout.HeaderIsRead | python/mpeg-ts/ts_pts_check.py:99-104 | PID, unit start, adaptation control and counter of a packet laid out as in section 2.4.3.2 are read back |
| TsLayout.PayloadIsRead | python/mpeg-ts/ts_pts_check.py:106-127 | the payload is cut exactly where the layout puts it, behind the length byte and the adaptation field, and only where there is one |
| TsLayout.OneCall | python/mpeg-ts/ts_pts_check.py:106-136 | a packet of a known stream leads to exactly one call, with its PID, payload and unit start |
| TsLayout.NoCallElse | python/mpeg-ts/ts_pts_check.py:106-136 | without payload, on an unknown PID or on PID 0 there is none |
| TsLayout.ClockIsRead | python/mpeg-ts/ts_pts_check.py:110-122 | a clock of section 2.4.3.5 in the adaptation field of the PCR PID is recorded with its value |
| TsLayout.NoClockElse | python/mpeg-ts/ts_pts_check.py:110-122 | without the flag, without room, without a field or on another PID none is recorded |
| TsLayout.StampedStart | python/mpeg-ts/ts_pts_check.py:238-275 | a PES header with a time stamp opens an entry with the stamp encoded in its five bytes and all bytes behind the header |
| TsLayout.UnstampedStart | python/mpeg-ts/ts_pts_check.py:238-275 | one without opens an entry without a stamp |
| TsLayout.NoStartElse | python/mpeg-ts/ts_pts_check.py:242-267 | a payload too short, without the prefix 00 00 01, or too short for its header or stamp opens none |
| TsLayout.KnownTypes | python/mpeg-ts/ts_pts_check.py:16-32 | the stream types printed as video and as audio |
| TsLayout.RowOfEntry | python/mpeg-ts/ts_pts_check.py:327-389 | a closed entry is printed if stamped and of known kind, with its size and its stamp, for audio plus 1800 |
| TsLayout.FrameOfTwoStarts | python/mpeg-ts/ts_pts_check.py:95-389 | from packet bytes to row: a stamped start packet closed by the next start prints its PID, kind, size behind the header and stamp |
| TsLayout.InfoIsRead | python/mpeg-ts/tscc.py:10-19 | the scanner reads PID, control, counter and, as the discontinuity mark, the top bit of the first field byte |
| TsLayout.CountedIs | python/mpeg-ts/tscc.py:21-48 | counted are exactly the packets with payload outside the null PID |
| TsLayout.ExtractedIs | python/mpeg-ts/ts_extract.py:59-85 | the extractor writes the payload behind the field; without a field the whole payload, or all but its first fourteen bytes at a unit start |
| TsClocks.ClockOfLaid | python/mpeg-ts/ts_pts_check.py:110-122 | the clock event of a laid out packet is the value in its field, and there is none otherwise |
| TsClocks.PacketIsTold | python/mpeg-ts/ts_pts_check.py:285-389 | each packet adds its clock value and then the frame it closes to what the clocks tell |
| TsClocks.RunIsTold | python/mpeg-ts/ts_pts_check.py:302-389 | on every run the origin is the time of the first clock or frame, the first and last clock value and the last stamp, overall and per kind, are those of the events, and the frames are the rows printed |
| TsClocks.FinishAllIsTold | python/mpeg-ts/ts_pts_check.py:400-402 | the closing call adds frame events and nothing else |
| UdpClientTable.GetKeepsGood | python/udp_xor_proxy/udp_xor_proxy_multi_cleanup.c:57-80 | a lookup, with any outcome of calloc and socket, keeps addresses unique and the open sockets equal to those in the list |
| UdpClientTable.CleanupKeepsGood | python/udp_xor_proxy/udp_xor_proxy_multi_cleanup.c:89-103 | so does a cleanup pass; no socket is closed twice |
| UdpClientTable.CleanupSoFar | python/udp_xor_proxy/udp_xor_proxy_multi_cleanup.c:91-102 | in the middle of a pass the sockets kept and those still to come are open |
| UdpClientTable.KeepIsInOrder | python/udp_xor_proxy/udp_xor_proxy_multi_cleanup.c:93-101 | a pass keeps exactly the entries seen within 60 seconds, in their original order |
| UdpClientTable.GoodForever | python/udp_xor_proxy/udp_xor_proxy_multi_cleanup.c:57-103 | on every run of lookups and passes both hold |
| UdpClientTable.ClosedOnce | python/udp_xor_proxy/udp_xor_proxy_multi_cleanup.c:96 | every descriptor was closed as often as it was opened, the open ones once less |
| UdpClientTable.GetIsUpdate | python/udp_xor_proxy/udp_xor_proxy_multi_cleanup.c:57-80 | as a map keyed by address, a lookup refreshes a key that is present or adds a missing one |
| UdpClientTable.CleanupIsFilter | python/udp_xor_proxy/udp_xor_proxy_multi_cleanup.c:89-102 | as a map, a pass keeps exactly the clients with now - last_seen <= 60, unchanged |
| UdpClientTable.AddrEqual | python/udp_xor_proxy/udp_xor_proxy_multi_cleanup.c:50-54 | addresses are equal exactly when family, port and address are; only the padding may differ |
| UdpProxy.Proxy.GetClient | python/udp_xor_proxy/udp_xor_proxy_multi_cleanup.c:57-80 | the linked list changes as the table says, and the node returned is in the list, matches and is fresh, or none if memory or socket failed; all nodes stay in the list and only that one is refreshed |
| UdpProxy.Proxy.Lookup | python/udp_xor_proxy/udp_xor_proxy_multi_cleanup.c:59-67 | the node found is the first in the list for the address |
| UdpProxy.Proxy.Insert | python/udp_xor_proxy/udp_xor_proxy_multi_cleanup.c:70-79 | a new node stands in front of the old list and its socket is open |
| UdpProxy.Proxy.Drop | python/udp_xor_proxy/udp_xor_proxy_multi_cleanup.c:96-98 | unlinking closes that node's socket and leaves the rest of the chain intact |
| UdpProxy.Proxy.Unlink | python/udp_xor_proxy/udp_xor_proxy_multi_cleanup.c:97 | letting what pointed at a node point behind it leaves the chain without that node |
| UdpProxy.Proxy.Visit | python/udp_xor_proxy/udp_xor_proxy_multi_cleanup.c:92-101 | one pass of the loop body drops an idle node or steps over it |
| UdpProxy.Proxy.CleanupPass | python/udp_xor_proxy/udp_xor_proxy_multi_cleanup.c:86-103 | the pointer-to-pointer loop filters the list in place as the table says; the nodes left are exactly those seen in the last 60 seconds, so a client just returned stays valid through every pass within a minute |
| UdpProxy.KeptAreFresh | python/udp_xor_proxy/udp_xor_proxy_multi_cleanup.c:91-102 | the nodes that hold the entries kept are those seen in the last 60 seconds |
| UdpProxy.XorBuffer | python/udp_xor_proxy/udp_xor_proxy_multi_cleanup.c:43-47 | the first len bytes are combined with the repeated key in place, the others stay |
| UdpProxy.XorDiffers | python/udp_xor_proxy/udp_xor_proxy_multi_cleanup.c:43-47 | byte by byte, before and after differ by the key laid over the payload round by round |
| UdpProxy.XorTwice | python/udp_xor_proxy/udp_xor_proxy_multi_cleanup.c:43-47 | applying the transform twice restores the payload |
| IniText.CommandsJoin | qt/inistream/IniStreamConfig.cpp:9-29 | the lines of two texts joined by a line feed are those of the first, then those of the second |
| IniMeaning.TrimmedIs | qt/inistream/IniStreamConfig.cpp:10-12 | trimming takes off the white space at both ends and nothing else |
| IniMeaning.TrimSplits | qt/inistream/IniStreamConfig.cpp:10-12 | every text is white space, its trimmed form, and white space |
| IniMeaning.FirstIsFound | qt/inistream/IniStreamConfig.cpp:21 | the equals sign found is the first one |
| IniMeaning.CommentMeans | qt/inistream/IniStreamConfig.cpp:12-13 | a line whose first visible character is ; or # does nothing |
| IniMeaning.HeaderMeans | qt/inistream/IniStreamConfig.cpp:16-19 | a bracketed name, in any white space, opens the section of that name in lower case |
| IniMeaning.NoEqualsMeans | qt/inistream/IniStreamConfig.cpp:21-23 | other lines without an equals sign do nothing |
| IniMeaning.KeyLineMeans | qt/inistream/IniStreamConfig.cpp:28-45 | key, equals sign and value in any white space: no value deletes the key, another sets it, without surrounding quotes if it has them |
| IniMeaning.EmptyValueDeletes | qt/inistream/IniStreamConfig.cpp:9-42 | a chunk that gives a key of a section no value removes exactly that key from exactly that section |
| IniMeaning.ValueIsStored | qt/inistream/IniStreamConfig.cpp:9-62 | a chunk that gives it a value stores that value there, unquoted, and changes nothing else |
| IniMeaning.StoredIsFound | qt/inistream/IniStreamConfig.cpp:66-111 | get, hasKey and hasSection find what was stored |
| IniMeaning.DeletedIsNotFound | qt/inistream/IniStreamConfig.cpp:66-111 | after a deletion get yields the default and hasKey is false, while the section remains |
| IniStream.IniStreamConfig.Parse | qt/inistream/IniStreamConfig.cpp:4-64 | the loop with its updates of the map is the run of the lines' commands |
| IniStream.IniStreamConfig.Execute | qt/inistream/IniStreamConfig.cpp:25-62 | insert, update and removal, skipped when nothing changes, amount to one map update, which creates the section |
| IniStream.LastLineDecides | qt/inistream/IniStreamConfig.cpp:9-63 | for each section and key the last effective line decides value or deletion, without one the old value stays; sections appear with their first key line and never vanish |
| IniStream.ParseIsIdempotent | qt/inistream/IniStreamConfig.cpp:4-64 | parsing any chunk again changes nothing |
| IniStream.ComposesIffHeaderFirst | qt/inistream/IniStreamConfig.cpp:6-26 | a chunk may be parsed apart from the text before it, in every state, if and only if no key line precedes its first header |
| IniStream.RunNormal | qt/inistream/IniStreamConfig.cpp:17-28 | sections and keys are always stored in lower case |
| IniStream.KeysAreLookedUpAsGiven | qt/inistream/IniStreamConfig.cpp:66-106 | looking a key up as given agrees with looking it up in lower case, for get and for hasKey, if and only if it is in lower case or not stored at all |
| IniStream.SectionsAreLookedUpInAnyCase | qt/inistream/IniStreamConfig.cpp:66-111 | section names may be given in any case |
| IniStream.MixedCaseKeyIsLost | qt/inistream/IniStreamConfig.cpp:28-51 | after "[a]", "Key=1" the key is stored as "key" and there is no "Key" |
| IniStream.MixedCaseKeyNeverFound | qt/inistream/IniStreamConfig.cpp:66-74 | a lookup by a key that is not in lower case never finds anything |
| TxRing.Ring.Put | openwrt/kernel/soft_uart/gpt/tx_ring.c:19-35 | a byte is refused exactly when 511 are queued and otherwise stands behind them |
| TxRing.Ring.Get | openwrt/kernel/soft_uart/gpt/tx_ring.c:38-53 | the oldest byte is taken, nothing exactly when the ring is empty |
| TxRing.Ring.Count | openwrt/kernel/soft_uart/gpt/tx_ring.c:56-64 | the count is the number of bytes queued |
| TxRing.QueuePut | openwrt/kernel/soft_uart/gpt/tx_ring.c:24-31 | writing at the head and advancing it appends to the circular queue |
| TxRing.QueueGet | openwrt/kernel/soft_uart/gpt/tx_ring.c:48-49 | advancing the tail removes the oldest byte |
| TxRing.FirstInFirstOut | openwrt/kernel/soft_uart/gpt/tx_ring.c:19-53 | over every sequence of puts and gets on buffer, head and tail, bytes handed out followed by bytes in the cells are the bytes accepted, and at most 511 are held |
| IncValidator.StepKeeps | python/inc_validator.py:35-70 | after every value the reports made and pending spell out the values read, runs are as long as possible, and the errors are the bad pairs |
| IncValidator.ReadsBack | python/inc_validator.py:41 | reading inverts the little-endian layout of any list of values, whatever stands behind it |
| IncValidator.ReadValues | python/inc_validator.py:34-70 | the read loop takes all complete values and keeps that account |
| IncValidator.Validator.Accept | python/inc_validator.py:41-70 | the loop body carries out that step |
| IncValidator.Validator.ReportChunk | python/inc_validator.py:18-25 | a run is reported if there is one, and its locals are reset |
| IncValidator.Validator.ReportZeros | python/inc_validator.py:27-32 | zeros are reported if there are any, and their locals are reset |
| IncValidator.Validate | python/inc_validator.py:7-80 | a file of the little-endian values vs and perhaps half a value gives one error for each non-zero value that is not the successor mod 65536 of a non-zero value before it, and one for the half; the reports are a lossless account of vs in maximal runs, zeros labelled with the value expected in their place |
| IncValidator.ReportsCoverAll | python/inc_validator.py:18-32 | the counts of the reports add up to all values read |

## Left out

UART
- Callbacks, the interrupt handler and the two halves of a write are atomic steps; the window in which `hrtimer_active` is still true while the transmit callback returns lies below that.
- What a device without a bit period does once its timers have been started.
- The round trip is for links that open with the transmitter idle, and for latencies below one bit period (with more, timers leave their grid); what a reopen does is stated separately.
- BitbangDevice.BitbangUart.TxCopy: the loop that waits for room, signals and faults of the user copy are not modelled.
- BitbangDevice.BitbangUart.ReadRx: the loop that waits for data, signals and faults of the user copy are not modelled.
- BitbangDevice.BitbangUart.constructor: pin and interrupt requests and the configuration without a pin are not modelled.
- Statistics counters are unbounded numbers.
- The receive paths of the two `gpio_uart_tty` drivers and all device registration.

SPI
- Hardware registers are an arbitrary stream of words; overruns, and the counters `pkt_err` and `stream_err`, which the packetizer never raises, are not modelled.
- One receive thread at a time and serialized messages are assumed; clearing the statistics is one step, taken together with the clear of the ring when the thread starts.
- SpiDriver.SpiImx.TransferLocked: waiting for a packet and signals are not modelled; a reader that finds no packet keeps waiting.
- Resetting the high-water mark when the status file is read.
- Counters are unbounded numbers.

H.264
- Printing; in particular the file position printed at line 60 of `h264nal.py`, which does not add back the removed 03 bytes.
- H264Emulation.StreamRoundTrip: NAL header bytes are not zero; a zero one would be the unspecified type 0 (ByteStreamRoundTrip covers it).

MPEG-TS
- Formatting of rows and milliseconds; a row is the PID, kind, size and compensated time stamp, and the clocks its times refer to are those of TsClocks.
- TsAnalyzer.TsAnalyzer.Finish: entries are finished in some order; that it is the order of the source's dictionary is not stated.
- A negative frame limit, which the program's argument parsing refuses; the packet count that is only logged; the printing of null packets by `tscc.py`.
- TsExtract.ExtractPid.Extract: the fixed 14-byte skip is kept as the code has it, without a claim that it is the PES header.
- TsFind.Process: the packets are collected before they are extracted; warnings about skipped bytes are not modelled.

UDP proxy
- UdpProxy.Proxy.GetClient: outcomes of `calloc`, `socket` and the clock are parameters; a descriptor handed out is one that is not open.
- What the main loop does with a client after the list lock is released, and freeing of memory.
- UdpProxy.XorBuffer: keys of 1 to 255 bytes; argument parsing is not modelled.

INI
- Text is taken as decoded; lower case is that of ASCII letters.
- Values are strings, not variants; the typed getters, `keys` and `sections` are not modelled.

Elsewhere
- IncValidator.Validate: the wording and file offsets of messages.
- TxRing: the spinlock makes each operation one step.
- Key management, widgets, audio, scripts, speed tests, build files and generic macros of the repository.

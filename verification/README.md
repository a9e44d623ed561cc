# OpenHD link logic in Dafny

A model of the parts of OpenHD whose correctness is decided by code rather than by hardware, with
proofs of what that code does. `dafny verify dfyconfig.toml` checks everything.

OpenHD connects an air unit and a ground unit over broadcast WiFi. The model covers seven areas:

- **Channel agreement** (`WbLink`, `ChannelFollow`, `ChannelSteps`, `Management`, `ChannelScan`,
  `WorkQueue`). The air unit announces its frequency and width on the old channel and then leaves;
  the ground unit hears frames only on the same frequency, stores the report in two separate
  atomics, and a work thread polls them. `WbLink` is the object with its methods and the invariant
  they keep; `ChannelFollow` is the protocol of both nodes as a step relation over a lossy in-order
  radio with every interleaving of the threads; `ChannelSteps` ties the two together; `WorkQueue` is
  the one-item queue in front of the work thread.
- **Telemetry** (`StreamTx`, `StreamRx`, `SequenceWindow`, `FunkyQueue`, `Wire`). Numbering,
  repeated injection, any loss, duplication and reordering, and the duplicate filter with its
  bounded memory.
- **RTP framing** (`RtpFu`, `FragmentCutter`). The bit-level parser against fragmentation units as
  section 5.8 of RFC 6184 and section 4.4.3 of RFC 7798 define them, and the cutter that turns
  packets into frames.
- **INI files** (`IniLexer`, `IniFile`, `IniRoundTrip`, `IniText`, `IniFileText`, `IniBuffer`). The
  line rules and the growing line buffer as functions, what they mean on explicit text, the writer,
  the exact round trip, and the in-place parser over a char array proved against the functions.
- **External devices** (`ExternalDevices`, `Forwarders`). The observer protocol and the forwarding
  lists driven by it.
- **Rates** (`RateBudget`, `FrameDrops`). From the radio's rate to the encoder bitrates in 32-bit
  arithmetic, and the counter of dropped frames with its grace period.
- **Small codecs** (`Ieee80211Header`, `VideoFormat`).

`Options` and `Arithmetic` serve the others.

Code that updates fields or buffers in place is modelled by classes, arrays and loops, each method
tied to a function whose properties are then proved. Threads are modelled by the order of their
atomic accesses. The forwarding part and the bitrate part of the air unit's video class are two
classes, in `Forwarders` and `RateBudget`. The radio, the user and the clock are parameters that the
theorems quantify over.

## Where the code and its description differ

The model follows the code.

- `src/SimpleStream.hpp:117` speaks of removing the oldest element; the smallest number is removed.
  The window theorem is about the largest 98 numbers, not the latest.
- A session change (`src/WBStreamRx.cpp:84-92`) leaves queued packets of the previous session in
  place, and their numbers can shadow new ones.
- `src/WBStreamTx.cpp:138` counts the fragments of the new block as dropped, not those pushed out.
- A scan takes reports of 10 MHz (`executables/wb_link.cpp:1465`), but the ground never stores
  one (`executables/wb_link_manager.cpp:180`), so such an air unit is never found.
- The comparison with the remembered pair (`executables/wb_link.cpp:1628-1629`) lets the ground
  ignore a correct announcement after its own user moved it, and the two separate loads let it
  adopt a pair no frame carried.
- A pipeline restart (`executables/gstreamstreamer.cpp:615`) drops the fragments but keeps the IDR
  flag of the frame they belonged to.
- `executables/nalu/NALU.hpp:59` refuses every type the H265 parser reports, so no H265 frame is ever
  marked as IDR.
- `executables/udp.h:75` promises that removing an unknown forwarder does nothing; the code erases
  whatever the search returns.
- Any disconnect switches forwarding off on the air unit (`executables/video_air.cpp:254`), also for
  devices that stay; the ground unit never removes sound forwarders
  (`executables/video_ground.cpp:82-85`), stops serving its own host when a device with that address
  leaves, and can be asked to remove an entry it never made when the skip test of a device comes out
  differently at the connect and at the disconnect (`executables/video_ground.cpp:99-118`).
- The 2.4 GHz rate is raised by a quarter where a reduction is described
  (`executables/wb_link_rate_helper.hpp:213-214`).
- The X20 heat protection is skipped by the first recommendation after any change
  (`executables/wb_link.cpp:1156`).
- A drop notified while a delay is pending still counts if it comes between the reset of the
  counter and the end of the delay (`executables/wb_link_helper.h:197-202`).
- Printed video formats such as 0x0@5 or 8x8@9 are not read back
  (`executables/camera.hpp:626`).

## Model

| member | source | states |
|---|---|---|
| `WbLinks.WbLink.constructor` | executables/wb_link.cpp:277-295 | a new unit starts inside the tuning invariant; the ground remembers its own frequency and listens on 40 MHz |
| `WbLinks.WbLink.Apply` | executables/wb_link.cpp:554-571 | afterwards the cards, the radiotap header and the injector stand as commanded, passive exactly for a listen-only ground unit, even when the user flips listen-only during the pause |
| `WbLinks.WbLink.SetFrequency` | executables/wb_link.cpp:376-394 | on air the new frequency is announced with the old one still tuned, the video gate closed and injection on for a whole wait, and only then do the cards drain and leave; the tuning invariant is kept, widths and the remembered pair stay |
| `WbLinks.WbLink.SetAirTxChannelWidth` | executables/wb_link.cpp:397-423 | likewise the new width is announced on the old channel before the cards change; receive width, header width and announced width end as the new one, the frequency stays |
| `WbLinks.WbLink.ChannelManagement` | executables/wb_link.cpp:1615-1644 | keeps the tuning invariant; with arbitrary stores of the receiver thread between its two loads it adopts the width loaded first and the frequency loaded last, iff the pair is acceptable and differs from the remembered one |
| `WbLinks.WbLink.PerformChannelScan` | executables/wb_link.cpp:1348-1498 | keeps the tuning invariant for any observations: it listens where the visits say and nowhere else, the result is the first hit in scan order, or failure with the persisted frequency and width unchanged; progress never falls, stays in 0..100 and ends at 100 |
| `WbLinks.WbLink.VisitChannel` | executables/wb_link.cpp:1389-1475 | one visit drains, tunes to exactly its frequency and width and listens there in passive mode; it is a hit iff tuning worked, valid packets came in and the report, as the frames of the visit left it, names this very frequency with a width of 10, 20 or 40 |
| `WbLinks.WbLink.PerformChannelAnalyze` | executables/wb_link.cpp:1500-1560 | listens on every channel in order, passive and with 40 MHz, progress rises to 100, and the unit comes back to its own settings with the tuning invariant intact |
| `WbLinks.WbLink.SetListenOnly` | executables/wb_link.cpp:756-762 | setting and injector change together, so the tuning invariant survives the callback between two pieces of work |
| `WbLinks.PerformAll` | executables/wb_link.cpp:847-862 | the tuning invariant holds after any mix of frequency changes, width changes, polls, scans, analyses, received frames and listen-only changes |
| `ChannelScan.ScanResultUnique` | executables/wb_link.cpp:1385-1477 | success holds iff some visit is a hit, and the observations determine the result and the number of visits |
| `ChannelScan.VisitAt` | executables/wb_link.cpp:1385-1422 | every visit that tunes listens on and reports its own channel, with 40 MHz on the first visit of a channel and 10 MHz on the second |
| `ChannelScan.ListeningIsAVisit` | executables/wb_link.cpp:1385-1422 | nothing else is listened to |
| `ChannelScan.SuccessIsOnAScannedChannel` | executables/wb_link.cpp:1464-1474 | a success names one of the scanned channels and a width of 20 or 40 that a frame heard on that visit carried |
| `ChannelScan.SuccessWasAnnounced` | executables/wb_link.cpp:1456-1467 | the frequency of a success was carried by a frame of that visit, or left over from just before it |
| `ChannelScan.AnnouncedChannelIsFound` | executables/wb_link.cpp:1464-1475 | a visit that tunes, gets valid packets and last hears its own channel announced with 20 or 40 MHz is a hit |
| `ChannelScan.NarrowAirIsNeverFound` | executables/wb_link.cpp:1366-1367 | a scan never finds an air unit that announces 10 MHz |
| `ChannelScan.ProgressIsNearest` | executables/utils.cpp:316-321 | the percentage is the whole number nearest to the progress made, halves upwards |
| `ChannelScan.ProgressMonotone` | executables/utils.cpp:316-321 | percentages grow with progress and stay within 0..100 |
| `ChannelScan.ReportsRise` | executables/wb_link.cpp:1414-1420 | the reports of any prefix of a scan never fall |
| `Management.ManagementGround.OnNewManagementPacket` | executables/wb_link_manager.cpp:174-187 | stores exactly the pair a well-formed announcement carries, and nothing from any other bytes; in particular the announcement of a frequency below 2^31 with 20 or 40 MHz leaves that frequency and that width |
| `Management.ManagementGround.Listen` | executables/wb_link_manager.cpp:174-187 | after any frames the report is that of the last announcement with a usable width |
| `Management.AnnouncementHeard` | executables/wb_link_manager.cpp:44-51 | what the air unit packs the ground unit unpacks: the same pair for widths 20 and 40, with frequencies from 2^31 on read as negative numbers, and nothing for any other width |
| `Management.BandwidthBytes` | executables/wb_link_manager.cpp:36-51 | the six bytes on air: identifier 0, the frequency from its low byte up, the width |
| `Management.OnlyAnnouncementsHeard` | executables/wb_link_manager.cpp:174-187 | bytes that store a pair are exactly the packing of that pair |
| `Management.ReportedWidth` | executables/wb_link_manager.cpp:180-185 | a reported width is the initial one or was carried by one of the frames |
| `Management.ReportedFrequency` | executables/wb_link_manager.cpp:180-185 | a reported frequency is the initial one or was carried by one of the frames |
| `ChannelFollow.RunsOk` | executables/wb_link_manager.cpp:108-136 | the inductive invariant of the two nodes holds in every run: the air unit is where its announcement says, everything on the ground came off the air, announcements arrive in order |
| `ChannelFollow.AdoptedWasOnAir` | executables/wb_link.cpp:1621-1641 | in every run each frequency and each width the ground adopts by polling was in some transmitted frame, torn loads included |
| `ChannelFollow.UndisturbedPoll` | executables/wb_link.cpp:1621-1641 | a poll without stores between its loads leaves the ground on exactly the last pair stored |
| `ChannelFollow.FollowsOnceHeard` | executables/wb_link.cpp:1615-1644 | once a frame of the current announcement is stored, one complete poll puts a ground unit that is not astray on the announced frequency, and no later step separates the units until the next request; astray means that the announced frequency is the remembered one while the cards are elsewhere |
| `ChannelFollow.FollowsIfHeardOnce` | executables/wb_link.cpp:376-394 | over whole lives: after any history at all, scans and ground requests included, if one usable frame of the current announcement is heard by a ground unit that is not astray, then once it has been stored and one poll has read it both units are on the announced frequency, in whatever order the threads run, and stay there until the next request |
| `ChannelFollow.FollowsIff` | executables/wb_link.cpp:1628-1641 | over whole lives, when all news under way is about the announced pair and the width is not changed: the ground unit follows iff it is not lost, that is not astray with the announced width remembered as well |
| `ChannelFollow.FollowsIffAdopts` | executables/wb_link.cpp:1628-1641 | over whole lives, with any news under way and any width changes: the ground unit follows iff it was not astray or some poll adopted a pair meanwhile |
| `ChannelFollow.LostRun` | executables/wb_link.cpp:1628-1641 | the other half over whole runs: a lost ground unit stays lost and never moves, and one that is not lost does not get lost |
| `ChannelFollow.CourseRun` | executables/wb_link.cpp:1635-1640 | nothing but a request makes a ground unit go astray |
| `ChannelFollow.PendingRun` | executables/wb_link_manager.cpp:174-187 | a received frame of the current announcement is not lost on the ground: it is stored by the time the receiver thread has nothing left to do |
| `ChannelFollow.SyncedWithoutOwnSteps` | executables/wb_link.cpp:1635-1640 | without requests of the ground user the remembered frequency is the real one, so the unit is never astray |
| `ChannelFollow.HeardInTimeReunites` | executables/wb_link.cpp:385-390 | if a usable frame reached a ground unit that is not astray before the air unit left, the ground can still get to it, whatever is queued before it |
| `ChannelFollow.SeparatedForever` | executables/wb_link.cpp:1619-1620 | there is no recovery: a ground unit that heard nothing before the air unit left stays apart in every run without a new request |
| `ChannelFollow.NarrowFramesAreRefused` | executables/wb_link_manager.cpp:180-185 | a report of 10 MHz changes nothing on the ground |
| `ChannelFollow.PollFollowsIff` | executables/wb_link.cpp:1628-1641 | one poll with nothing between its loads brings the ground to the announced frequency iff its remembered pair differs from the reported one or it is there already |
| `ChannelFollow.StaleMemoryIgnoresAnnouncement` | executables/wb_link.cpp:1628-1629 | a reachable run after which the ground has stored the announcement, polled, and is lost on another frequency |
| `ChannelFollow.TornPairAdopted` | executables/wb_link.cpp:1621-1636 | a reachable run in which the ground adopts a pair no frame ever carried |
| `ChannelSteps.ChangeAirFrequency` | executables/wb_link.cpp:376-394 | the frequency change of the air unit is the protocol steps request and retune, and the world between the two is the one in which it announces and waits |
| `ChannelSteps.ChangeAirWidth` | executables/wb_link.cpp:404-422 | the same for the width change of the air unit |
| `ChannelSteps.ChangeGroundFrequency` | executables/wb_link.cpp:376-394 | the frequency change of the ground unit is its protocol step |
| `ChannelSteps.PollOnce` | executables/wb_link.cpp:1615-1644 | a poll is the protocol steps load, load and follow, with any steps of the receiver thread between the loads |
| `ChannelSteps.ReceiverWrites` | executables/wb_link_manager.cpp:180-183 | the steps of the receiver thread change the report by what they write, and nothing else the poll uses |
| `WorkQueues.WorkIsSerial` | executables/wb_link.cpp:847-862 | over every interleaving of requesters and worker: at most one item queued, only accepted items run, none twice, in acceptance order, and nothing is accepted between the acceptance of an item and its end |
| `WorkQueues.WorkIsSerialFromStart` | executables/wb_link.cpp:847-862 | the same for every run from the start |
| `WorkQueues.RejectionChangesNothing` | executables/wb_link.cpp:1229-1248 | a request is turned away only for a taken mutex or a queued item, and changes no state |
| `WorkQueues.WorkItemQueue.TrySchedule` | executables/wb_link.cpp:1229-1248 | does what the protocol steps allow, accepts iff the mutex is free and the queue empty, and otherwise leaves the queue alone |
| `WorkQueues.WorkItemQueue.LoopTurn` | executables/wb_link.cpp:850-862 | one turn of the worker is the protocol steps lock, begin and end: a front item that is ready runs and leaves the queue, anything else stays |
| `SequenceWindow.WindowAfterRun` | src/SimpleStream.hpp:96-122 | after any packets and session changes the known set is exactly the min(98, n) largest of the n distinct numbers received; the first packet ever is no exception |
| `SequenceWindow.ForwardedIff` | src/SimpleStream.hpp:107-114 | a packet is forwarded iff its number is new in the session or 98 larger ones have been received |
| `SequenceWindow.TopMember` | src/SimpleStream.hpp:115-119 | a received number is remembered exactly while fewer than 98 larger ones have been received |
| `SequenceWindow.TopUnique` | src/SimpleStream.hpp:115-119 | what was received determines the known set |
| `FunkyQueues.FunkyQueue.TryEnqueue` | src/FunkyQueue.h:25-34 | appends iff there is room and says so, otherwise changes nothing |
| `FunkyQueues.FunkyQueue.EnqueueOrClearEnqueue` | src/FunkyQueue.h:38-54 | the new item always ends up queued; clearing happens only when full and the number of removed items is returned |
| `FunkyQueues.FunkyQueue.WaitDequeueTimed` | src/FunkyQueue.h:56-75 | takes the oldest item, or nothing from an empty queue |
| `FunkyQueues.FifoAndConservation` | src/FunkyQueue.h:20-75 | for every run: taken then queued items are a subsequence of the offered ones, each offer is taken, queued or dropped, and the size stays within the capacity |
| `FunkyQueues.LeavesOnlyBy` | src/FunkyQueue.h:25-75 | in every run an accepted item leaves the queue only by being taken or by a forced offer to a full queue |
| `FunkyQueues.SurvivalOfForced` | src/FunkyQueue.h:38-54 | a forced item survives its call, and exactly when queued items do |
| `StreamTx.FecDisabledEncoder.EncodePacketBuffer` | src/SimpleStream.hpp:41-55 | prefixes the payload with the next number; the largest 64-bit value is skipped |
| `StreamTx.NumbersWrap` | src/SimpleStream.hpp:50-53 | the k-th number is k modulo 2^64 - 1 |
| `StreamTx.PacketBytes` | src/SimpleStream.hpp:43-49 | the layout on air: eight bytes of number from the low byte up, then the payload |
| `StreamTx.PacketStreamTx.TryEnqueuePacket` | src/WBStreamTx.cpp:59-72 | keeps provided = processed + queued + dropped, and nothing on air changes |
| `StreamTx.PacketStreamTx.EnqueuePacketDropping` | src/WBStreamTx.cpp:74-87 | keeps the same balance when the queue is cleared |
| `StreamTx.PacketStreamTx.LoopProcessData` | src/WBStreamTx.cpp:236-256 | one turn puts the oldest packet on air, numbered, exactly as often as asked, and keeps the balance |
| `StreamTx.CheckSizes` | src/WBStreamTx.cpp:95-102 | accepts exactly the blocks whose fragments have 1 to 1441 bytes |
| `StreamTx.BlockStreamTx.TryEnqueueBlock` | src/WBStreamTx.cpp:89-115 | size-valid blocks = processed + queued + dropped frames; the packet counter stays as exact as it was |
| `StreamTx.BlockStreamTx.EnqueueBlockDropping` | src/WBStreamTx.cpp:117-142 | the same balance of frames; says by how much the packet counter and the real loss grow |
| `StreamTx.BlockStreamTx.TryEnqueueFrame` | src/WBStreamTx.cpp:144-163 | the same balance for whole frames |
| `StreamTx.DropCounterExactIff` | src/WBStreamTx.cpp:136-140 | the packet counter is exact over a dropping call iff nothing was pushed out or the new block has as many fragments as all that was |
| `StreamTx.DropCounterDrifts` | src/WBStreamTx.cpp:137-139 | a three-fragment block pushed out by a one-fragment block counts as one packet |
| `StreamRx.FecDisabledDecoder.ProcessPacket` | src/SimpleStream.hpp:80-90 | short data is ignored, anything else goes through the filter |
| `StreamRx.ShortIsIgnored` | src/SimpleStream.hpp:81-84 | up to eight bytes change nothing and deliver nothing |
| `StreamRx.FecDisabledDecoder.ProcessNumberAndPayload` | src/SimpleStream.hpp:96-120 | the map operations refine the filter of the window theorem, first packet and eviction included |
| `StreamRx.WbStreamRx.OnNewPacket` | src/WBStreamRx.cpp:67-82 | queues or decodes, depending on the threading option |
| `StreamRx.WbStreamRx.OnNewSession` | src/WBStreamRx.cpp:84-92 | forgets the known numbers but not the queued packets |
| `StreamRx.SessionsStart` | src/WBStreamRx.cpp:84-92 | a new receiver and a session change both begin a session with an empty known set |
| `StreamRx.DeliveryCount` | src/SimpleStream.hpp:96-120 | in any session, for any loss, duplication and reordering: a number is delivered iff some copy arrives, and more than once iff a repeat arrives after 98 larger ones |
| `StreamRx.DeliveredIntact` | src/SimpleStream.hpp:80-90 | from any state of the receiver every delivery is byte for byte the payload that was sent under its number |
| `StreamRx.ExactlyOnce` | src/WBStreamTx.cpp:259-267 | end to end within any session of the receiver, with fewer than 2^64 - 1 packets numbered: a non-empty payload comes out exactly once iff a copy arrives and no copy is a repeat overtaken by 98 larger numbers |
| `StreamRx.FirstCopyAfterSessionChange` | src/WBStreamRx.cpp:84-92 | after a session change with queued packets the first copy of a number is lost iff the number is in the window of the queued ones |
| `StreamRx.StalePacketHidesFirst` | src/WBStreamRx.cpp:84-92 | one queued packet of the old session loses the packet of the same number of the new one |
| `RtpFu.UnitMarks` | executables/rtp_eof_helper.cpp:63-147 | for every NAL unit sent whole or as fragmentation units of section 5.8 of RFC 6184 or section 4.4.3 of RFC 7798: start exactly on the first, end exactly on the last packet, and for H264 the original header octet |
| `RtpFu.InfoIs` | executables/rtp_eof_helper.cpp:63-147 | what the parser says of any bytes, bit by bit: packet type 28 or 49, the end bit wins over the start bit, short packets say nothing |
| `RtpFu.H264FragmentBytes` | executables/rtp_eof_helper.cpp:34-46 | the layout of a fragmentation unit of section 5.8 of RFC 6184 |
| `RtpFu.H265FragmentBytes` | executables/rtp_eof_helper.cpp:47-61 | the layout of a fragmentation unit of section 4.4.3 of RFC 7798 |
| `FragmentCutter.Cutter.OnNewRtpFrameFragment` | executables/gstreamstreamer.cpp:622-659 | the fields change as the cutting function says |
| `FragmentCutter.Cutter.CleanUpPipeline` | executables/gstreamstreamer.cpp:611-615 | a restart forgets the fragments and keeps the IDR flag |
| `FragmentCutter.Partition` | executables/rtp.cpp:158-192 | for any packets: the frames followed by what is pending are the input in order, every frame has 1 to 501 fragments, is cut exactly at an end mark or at the 501st, and its flag tells of its own starts |
| `FragmentCutter.FrameSizes` | executables/gstreamstreamer.cpp:648-658 | every frame has 1 to 501 fragments and ends on an end mark or on the 501st, and at most 500 fragments wait |
| `FragmentCutter.RecoversUnitsIff` | executables/gstreamstreamer.cpp:622-659 | for any stream of NAL units one frame comes out per fragmented unit, whole units riding with the next one, iff no such frame exceeds 501 fragments and at most 500 whole units trail |
| `FragmentCutter.FlagOutlivesRestart` | executables/gstreamstreamer.cpp:615-642 | with restarts the flag also depends on the packets thrown away since the last frame |
| `FragmentCutter.FlagRightIff` | executables/gstreamstreamer.cpp:615-657 | a frame carries the flag its own packets deserve iff it contains a start mark or the packets thrown away before it did not end on IDR |
| `FragmentCutter.FlagWrongAfterRestart` | executables/gstreamstreamer.cpp:611-615 | a concrete restart after which a frame without any start passes for IDR |
| `FragmentCutter.NoIdrInH265` | executables/nalu/NALU.hpp:58-65 | no H265 frame ever carries the IDR flag, in any run |
| `FragmentCutter.IdrIffLastStart` | executables/nalu/NALU.hpp:58-65 | for H264 the flag is set iff the last start mark is of type 5 |
| `FragmentCutter.UnitIdrIff` | executables/nalu/NALU.hpp:58-65 | a fragmented unit makes an IDR frame iff it is an H264 unit of type 5 |
| `IniBuffer.ParseStream` | executables/ini.hpp:75-172 | the in-place parser over the char buffer computes the parsing function, for every byte stream |
| `IniBuffer.RStripAt` | executables/ini.hpp:42-46 | cuts trailing whitespace off the string in place and touches nothing outside it |
| `IniBuffer.LSkipAt` | executables/ini.hpp:49-52 | points at the first character that is not whitespace |
| `IniBuffer.FindAt` | executables/ini.hpp:57-65 | points at the first of the characters or inline comment, or at the end |
| `IniBuffer.GrowAt` | executables/ini.hpp:105-119 | the doubling loop terminates and refines the growing function, buffer within 2000 bytes |
| `IniBuffer.NextLine` | executables/ini.hpp:104-164 | one turn reads one whole line and takes it apart, byte order mark included |
| `IniBuffer.PairAt` | executables/ini.hpp:145-164 | name and value as the line function says |
| `IniBuffer.SectionAt` | executables/ini.hpp:133-143 | section name as the line function says, cut to 49 characters |
| `IniFile.GrowTakesLine` | executables/ini.hpp:105-119 | however often the buffer grows, it ends with the whole line or its first 1999 bytes, and the rest follows |
| `IniFile.ReadLineTakesLine` | executables/ini.hpp:104-119 | reading a line takes exactly that line off the stream |
| `IniFile.ParsedIsStorable` | executables/ini.hpp:75-172 | whatever bytes are read, an accepted file holds only names and values the writer can store |
| `IniLexer.HeaderRoundTrip` | executables/ini.hpp:133-143 | a written section header is read back |
| `IniLexer.PairRoundTrip` | executables/ini.hpp:145-164 | a written key and value are read back |
| `IniLexer.SectionReadIsOk` | executables/ini.hpp:133-143 | a section name that was read meets the lexical condition |
| `IniLexer.PairReadIsOk` | executables/ini.hpp:145-164 | a key and a value that were read meet the lexical condition and fit into their line |
| `IniRoundTrip.Write` | executables/ini.hpp:498-515 | sections and keys are written in the order of the sets, as the printing function says |
| `IniRoundTrip.LineStep` | executables/ini.hpp:104-167 | one written line is consumed and acted on, even one that fills the buffer exactly |
| `IniRoundTrip.RoundTripIff` | executables/ini.hpp:480-515 | parsing what was written gives no error and the same map iff no section is empty and every name and value meets the lexical condition |
| `IniRoundTrip.Canonical` | executables/ini.hpp:498-515 | writing and parsing any accepted file changes nothing |
| `IniText.SectionOkIff` | executables/ini.hpp:133-143 | the lexical condition for section names in terms of bytes |
| `IniText.KeyOkIff` | executables/ini.hpp:145-164 | the lexical condition for keys in terms of bytes |
| `IniText.ValueOkIff` | executables/ini.hpp:145-164 | the lexical condition for values in terms of bytes |
| `IniText.EntryOkIff` | executables/ini.hpp:105-119 | an entry can be stored iff key and value can and have at most 1998 bytes together |
| `IniText.CommentLine` | executables/ini.hpp:129-132 | blank lines and lines whose first character that is not blank is # or ; say nothing, whatever follows |
| `IniText.SectionText` | executables/ini.hpp:133-143 | a bracketed name with blanks before it and anything behind it starts that section, cut to 49 bytes |
| `IniText.MalformedText` | executables/ini.hpp:139-163 | a section line without closing bracket and any other line without = and : are errors |
| `IniText.PairText` | executables/ini.hpp:145-164 | key and value are read with blanks anywhere around them, with = or :, and a remark behind blanks and ; is cut off |
| `IniFileText.FeedPrefix` | executables/ini.hpp:104-167 | a text that ends with a line is consumed as a whole, whatever follows |
| `IniFileText.Shifted` | executables/ini.hpp:104-128 | neither the size of the buffer nor the lines before matter, except for the number in an error and for the byte order mark |
| `IniFileText.CommentsDoNotMatter` | executables/ini.hpp:129-132 | inserting a comment line anywhere between two lines changes nothing but the number in an error |
| `IniFileText.BomIsSkipped` | executables/ini.hpp:123-128 | a byte order mark before the first line is ignored |
| `IniFileText.MissingSeparator` | executables/ini.hpp:160-166 | after any accepted text, a line without separator is an error with the number of that line |
| `IniFileText.SecondValueIsRefused` | executables/ini.hpp:480-489 | after any text, a second value for a key whose value is not empty is refused |
| `IniFileText.TwoValues` | executables/ini.hpp:480-489 | a key written twice is refused when its first value is not empty, otherwise the second value stands |
| `IniFileText.SectionsAreSorted` | executables/ini.hpp:304-310 | sections are written in the order of their bytes, each once |
| `IniFileText.SectionNames` | executables/ini.hpp:304-310 | only sections that are there are written, with their entries |
| `IniFileText.SectionFound` | executables/ini.hpp:304-310 | every section is written |
| `IniFileText.KeysAreSorted` | executables/ini.hpp:312-319 | keys are written in the order of their bytes, each once |
| `IniFileText.EntryAt` | executables/ini.hpp:508-513 | only keys that are there are written, with their values |
| `IniFileText.KeyFound` | executables/ini.hpp:508-513 | every key is written |
| `IniFileText.PrintedText` | executables/ini.hpp:508-513 | the bytes of a section and of an entry |
| `ExternalDevices.EventsAlternate` | executables/external_device.cpp:58-94 | events about one identifier alternate, beginning with a connect, and end on a connect exactly when the device is known |
| `ExternalDevices.KnownIff` | executables/external_device.cpp:58-94 | a listener knows exactly the devices whose latest event is a connect, as that event described them |
| `ExternalDevices.ExternalDeviceManager.OnNewExternalDevice` | executables/external_device.cpp:58-94 | only changes are passed on, every listener gets the same event, every fold stays the device map and the counter its size modulo 256; nothing happens after removal of all |
| `ExternalDevices.ExternalDeviceManager.RegisterListener` | executables/external_device.cpp:96-104 | a late listener is told every known device, so its fold is the device map too |
| `ExternalDevices.ExternalDeviceManager.RemoveAll` | executables/external_device.cpp:106-121 | every listener gets one disconnect per device, and every fold is empty |
| `Forwarders.UdpMultiForwarder.AddForwarder` | executables/udp.cpp:73-89 | appends the destination unless it is listed |
| `Forwarders.UdpMultiForwarder.RemoveForwarder` | executables/udp.cpp:91-100 | erases the first matching entry, which has to be there |
| `Forwarders.VideoAir.StartStopForwarding` | executables/video_air.cpp:245-259 | both lists hold each connected address exactly once and nothing else after every event |
| `Forwarders.Deliver` | executables/video_air.cpp:94-97 | composed with the manager: every removal finds its entry, and the lists hold exactly the devices of the manager |
| `Forwarders.FlagRightIff` | executables/video_air.cpp:252-254 | the forwarding flag says throughout a run that some device is connected iff no device ever leaves while another one stays |
| `Forwarders.FlagWrongWhenOneStays` | executables/video_air.cpp:252-254 | two devices connect, one leaves, and forwarding to the other stops |
| `Forwarders.VideoGround.constructor` | executables/video_ground.cpp:31-41 | video and sound go to this host from the start |
| `Forwarders.VideoGround.StartStopForwarding` | executables/video_ground.cpp:76-127 | the lists follow the events, with the addresses of the host as they are at each event, except that sound entries stay |
| `Forwarders.OwnHostIsSkipped` | executables/video_ground.cpp:97-121 | what the telemetry server reports about this host changes neither list |
| `Forwarders.OthersAreHandled` | executables/video_ground.cpp:111-127 | any other event adds or removes its address for video and adds it for sound |
| `Forwarders.GroundVideo` | executables/video_ground.cpp:97-127 | for any events: video goes exactly to the addresses whose latest event that was not skipped is a connect, and to this host as long as there is none about it |
| `Forwarders.AllFoundIff` | executables/video_ground.cpp:111-127 | every removal of a run finds its entry iff each disconnect that is not skipped is about an address whose latest earlier event that was not skipped is a connect, or about this host before any |
| `Forwarders.SteadyRunFinds` | executables/video_ground.cpp:111-127 | with the events of the manager it holds when all events about one address are skipped or none is |
| `Forwarders.DeliverToGround` | executables/video_ground.cpp:111-127 | a run that meets the exact condition can be handled to the end |
| `Forwarders.OtherDiscoveryMisses` | executables/video_ground.cpp:113-126 | the manager allows a run in which a device leaves by another discovery and the removal finds no entry |
| `Forwarders.AddressChangeMisses` | executables/video_ground.cpp:99-109 | the same with one discovery, when the addresses of the host change in between |
| `Forwarders.GroundSound` | executables/video_ground.cpp:82-85 | sound keeps going to every address that ever connected without being skipped |
| `RateBudget.MaxRate` | executables/wb_link_rate_helper.hpp:197-225 | 2900 to 68750 kBit/s whatever the card, channel and index; no 32-bit overflow |
| `RateBudget.RatesGrow` | executables/wb_link_rate_helper.hpp:41-215 | a wider channel is at least as fast, 40 MHz strictly faster; cards, widths and indices that are not known get 5000; 2.4 GHz gives five quarters |
| `RateBudget.Budget` | executables/wb_link_helper.cpp:322-348 | for every accepted percentage the product stays within 32 bits and the budget is positive |
| `RateBudget.BudgetIs` | executables/wb_link_rate_helper.hpp:232-234 | the budget is the given percentage of the rate, rounded down |
| `RateBudget.DeduceFecOverhead` | executables/wb_link_rate_helper.hpp:227-230 | the result is the rounded share of the budget, halves upwards |
| `RateBudget.VideoRateFitsBudget` | executables/wb_link.cpp:1131-1133 | twice the distance between rate times (100 + p) and 100 times the budget is at most 100 + p |
| `RateBudget.ProtectedIff` | executables/wb_link.cpp:1138-1195 | exactly on the X20 and not right after a change the recommendation is the protected rate, at most seven tenths; otherwise it is the full rate |
| `RateBudget.HeatFactors` | executables/wb_link.cpp:1187-1194 | 30 percent of the rate when warm and 70 otherwise, rounded down, and half of that while not armed |
| `RateBudget.SplitKeepsTotal` | executables/video_air.cpp:224-239 | the two shares add up to the rate, each within 1 of its percentage; the clamped targets add up to it iff no share is below the minimum, and never exceed it by more than twice the minimum |
| `RateBudget.CameraStream.HandleChangeBitrateRequest` | executables/gstreamstreamer.cpp:388-421 | target and setting become the clamped rate, and the settings are written only when they change |
| `RateBudget.VideoAir.HandleChangeBitrateRequest` | executables/video_air.cpp:218-243 | every stream runs at its clamped share |
| `RateBudget.RateAdjuster.PerformRateAdjustment` | executables/wb_link.cpp:1111-1197 | for all accepted settings the recommendation is positive, never ignored, and every stream runs at its share of it |
| `RateBudget.RateAdjuster.RecommendBitrate` | executables/wb_link.cpp:1199-1227 | a rate of 0 or less changes nothing |
| `RateBudget.AdjustRepeatedly` | executables/wb_link.cpp:1199-1204 | any number of further runs under unchanged settings leaves every camera as the second one left it, with at most one write of its settings, two on the X20 |
| `FrameDrops.TakenOnce` | executables/wb_link_helper.h:187-218 | every dropped frame is taken by exactly one check, in order, or still counted |
| `FrameDrops.AlarmIff` | executables/wb_link_helper.h:207-218 | a check answers true iff no delay is pending, three seconds have passed since the last check and at least four frames were dropped |
| `FrameDrops.LabelsTell` | executables/wb_link_helper.h:187-206 | drops are labelled by whether a delay is pending, and a check ends the delay, and takes the counter, as soon as its time has come |
| `FrameDrops.AlarmIsSound` | executables/wb_link_helper.h:207-218 | in every run a true answer saw more than three drops, at least three seconds after the check before; drops notified under a delay are among them only if they came while a check was ending that delay |
| `FrameDrops.AlarmUnderDelayIff` | executables/wb_link_helper.h:192-205 | in every run from the start: a true answer includes a drop notified under a delay iff the latest check that took the counter had ended a delay with drops coming in between |
| `FrameDrops.UndisturbedChecksAreSound` | executables/wb_link_helper.h:192-205 | when no check is disturbed while it ends a delay, no drop notified under a delay is ever behind a true answer |
| `FrameDrops.NextAlarmUnderDelayIff` | executables/wb_link_helper.h:192-205 | after a check that ends a delay, any notifications and a true answer: the answer includes a drop from under the delay iff some came in between |
| `FrameDrops.AlarmsAreRare` | executables/wb_link_helper.h:207-218 | in every run the true answers are at least three seconds apart and use up at least four drops each |
| `FrameDrops.LateDropsAlarm` | executables/wb_link_helper.h:192-205 | drops notified between the reset of the counter and the end of the delay do count later |
| `FrameDrops.FrameDropsHelper.NeedsBitrateReduction` | executables/wb_link_helper.h:191-218 | state and answer are those of the step function |
| `FrameDrops.FrameDropsHelper.NotifyDroppedFrame` | executables/wb_link_helper.h:187-189 | adds to the counter |
| `FrameDrops.FrameDropsHelper.DelayFor` | executables/wb_link_helper.h:227-229 | starts or moves the delay and counts nothing |
| `Ieee80211Header.DecodeEncode` | src/Ieee80211Header.hpp:59-136 | every 64-bit nonce, port, identifier and sequence value is read back from the bytes, and both checks hold |
| `Ieee80211Header.HeaderBytes` | src/Ieee80211Header.hpp:59-83 | the layout byte by byte |
| `Ieee80211Header.WrittenIff` | src/Ieee80211Header.hpp:118-135 | a header can have been written iff its first ten bytes are the fixed ones and both checks hold |
| `Ieee80211Header.Header.constructor` | src/Ieee80211Header.hpp:59-83 | a new header is the layout of all zeros with the air identifier |
| `Ieee80211Header.Header.WriteNonce` | src/Ieee80211Header.hpp:88-95 | only the nonce changes, split over the two addresses |
| `Ieee80211Header.Header.GetNonce` | src/Ieee80211Header.hpp:96-101 | the last nonce written |
| `Ieee80211Header.Header.WriteRadioPortSrcDst` | src/Ieee80211Header.hpp:106-109 | only the port changes, in both places |
| `Ieee80211Header.Header.GetValidRadioPort` | src/Ieee80211Header.hpp:122-128 | the last port written, and the check holds |
| `Ieee80211Header.Header.WriteUniqueIdSrcDst` | src/Ieee80211Header.hpp:113-116 | only the identifier changes, in both places |
| `Ieee80211Header.Header.GetValidAirGndId` | src/Ieee80211Header.hpp:118-126 | the last identifier written, and the check holds |
| `Ieee80211Header.Header.WriteIeee80211SeqNr` | src/Ieee80211Header.hpp:156-161 | only the sequence field changes, low byte first |
| `VideoFormat.RoundTripIff` | executables/camera.hpp:621-642 | a printed format is read back iff it is 0x0@0, or no number is negative and some number has two digits |
| `VideoFormat.ParsePrint` | executables/validate_camera_settings.cpp:65-70 | what parsing makes of any three printed numbers, negative ones included |
| `VideoFormat.DecimalDigits` | executables/validate_camera_settings.cpp:65-70 | each printed character is the digit of its place, without leading zeros |
| `VideoFormat.SearchIsLeftmost` | executables/camera.hpp:630-632 | the first index where a match begins decides |

## Left out

- FEC encoding and decoding, block splitting, encryption and packet validation of the receiver: bodies in other files.
- Sockets, pcap, GStreamer, files, logging and shell commands: "tuned" is the last command given to the cards, "sent" the last call.
- Time: announcement intervals and sleeps are nondeterministic steps; `FrameDrops` takes the clock readings as parameters, and its three seconds count from the reading stored by the check that reset the counter, which precedes the reset itself.
- Byte and bitrate counters and the width of packet counters: counters are unbounded.
- Validation of requested frequencies and widths against cards and platforms: the work items start after it; the tables of scan channels are parameters.
- The listening time of a scan visit: the observation is which frames came in before each of the two loads, and the branch for 80 MHz cannot be reached from the two scanned widths.
- Reporting of the operating mode, transmit power, MCS changes and the RC channel helpers: single-branch code.
- A failed retune: the cards are taken to accept every command, as in the unchecked calls of the source, except in a scan, where failure is an observation.
- ChannelFollow.UndisturbedPoll: frequencies of at most 100 MHz are never adopted, so it asks for more.
- ChannelFollow.FollowsIff: its condition can be checked at the hearing, so it asks that news still under way is about the announced pair; without that the exact condition is ChannelFollow.FollowsIffAdopts.
- ChannelSteps: the visits, resets and results of a scan or analysis are protocol steps that are not derived from the methods.
- RTPFragmentBuffer never forwards the frame it assembles; its cutting is the same code as that of the stream class and is modelled once.
- The typed getters and InsertEntry of the INI reader, the name remembered per section (never read), out-of-memory results, and the refusal to overwrite a file.
- The order in which a new listener learns of known devices and in which removal reports them: any order.
- The addresses of the ground host: a set given with each event instead of a text search in the output of a command.
- The reduction of the bitrate on dropped frames: the guarding flag is constant false.
- Pipeline restarts and user changes of a camera's bitrate between two recommendations.
- RateBudget.DeduceFecOverhead: exact rational rounding; the source divides in double precision, where the quotients of this range are either exact at halves or far from them.
- ChannelScan.ProgressIsNearest: exact rational rounding instead of double precision.
- IniFileText.CommentsDoNotMatter: text without NUL bytes, which end a line early, and a comment that fits into the buffer, whose excess would be read as a line of its own.
- VideoFormat.ParsePrint: numbers are unbounded; text whose digits exceed an int is undefined in the source.
- The helper that writes dummy addresses into a header for testing, and the raw header class beside it.
- The helper that counts foreign packets per second.

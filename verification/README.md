# Verified model of the neighbour discovery service

`ndisc` tells its neighbours about its network devices in LLDP frames (IEEE Std 802.1AB), keeps a
table of the neighbours it hears, reads its own devices from the kernel over netlink, and serves the
table to local clients. This project models the logic of those parts in Dafny and proves what they
keep over every run. `dafny verify dfyconfig.toml` checks all of it.

## How it is organised

| file | what it models |
|---|---|
| `Common.dfy` | bytes, fixed-width integers, byte orders, the device record |
| `SenderSpec.dfy`, `SenderRuns.dfy`, `SenderFrames.dfy`, `SenderRecovery.dfy`, `LldpSenderObject.dfy` | the transmit state machine as a transition system, its whole-run properties, what its frames say and when changes are announced, its recovery from outages, and the object that refines it |
| `LldpPacket.dfy` | TLVs and data units: printing and parsing, as functions and as the loops over buffers and spans |
| `NeighbourTable.dfy`, `LldpMonitor.dfy` | the two-level neighbour table, its ageing and its history; interpretation of frames and histories of them; the list updated in place |
| `FrameMeaning.dfy` | the frame a sender builds and what its bytes mean to a receiver |
| `KeepAlive.dfy`, `LinkFreshness.dfy` | a sender and a receiver on one lossy link: how long and how truly it is known |
| `LldpRepositoryObject.dfy`, `LldpRepositoryRuns.dfy`, `LldpRepositoryPorts.dfy` | reconciliation of the senders with a device snapshot; runs in which the device repository provides the snapshots; each port as a run of its sender |
| `ClientWire.dfy`, `ClientSnapshot.dfy`, `ClientConnection.dfy`, `ClientTable.dfy` | the client packets, the dump and its reconstruction, the two ends of a connection, and the client's map against the neighbour table |
| `NetlinkFraming.dfy` | netlink batches, messages and attributes (section 2.2 of RFC 3549) |
| `DumpReader.dfy` | the dump request state machine, shared by the device reader and the address reader |
| `DeviceRepository.dfy`, `DumpOutcomes.dfy`, `DeviceRepositoryObject.dfy` | the chained dumps, the resync timer and the device table, as a transition system and as an object |
| `DumpReading.dfy` | from the bytes of the kernel's dumps to the device table and the senders |
| `EventManagerObject.dfy` | the registry of event handlers: runs over all managers and handlers, and the objects that refine them |

Where the source is an object whose methods update fields, the model has a class with those fields.
Each of its methods is proved against a function on plain values, and the properties are proved of
runs of that function. The environment is explicit: the outcome of the n-th `sendto`, which frames a
link loses, the address and padding a frame arrives with, the outcome of sending a netlink request
or of an epoll call are parameters over which every theorem is quantified.

## Assumptions

These are not established by the code, and are stated as preconditions.

- TLV values are byte sequences, which is the intended meaning of the spans in a frame.
- The time-to-live TLV of a received frame has at least two bytes: the parser does not check it.
- Port identifiers sent to clients have at most 506 bytes and interface names at most 16: nothing
  checks the sizes of the arrays they are copied to.
- Netlink batches are multiples of four bytes, their messages have room for the structure their type
  announces, and the space of their attributes is aligned.
- Ticks of the readers and of the device repository fit a signed 32-bit integer.

## Where the code falls short of what it is for

The code is modelled as it is; each of these is proved with the exact condition.

- Credits are topped up only when the whole tick fits under the maximum of five. With ticks of six
  seconds or more a sender without credits, which every new one is, never sends again
  (`SenderRuns.LongTicksStarve`). Over any run a new sender has ever sent if and only if its device can
  send and some tick of one to five seconds found it operational (`SenderRuns.EverSentIff`); with ticks of
  at most five seconds the longest silence is bounded.
- A TLV header is faithful exactly for types up to 127 and values up to 511 bytes; longer lengths are
  or-ed into the type (`LldpPacket.TlvRoundTrip`, `LldpPacket.ParseAfterPrint`). So a frame means what
  its sender intended exactly when the machine id has at most 510 bytes (`FrameMeaning.EndToEnd`).
- A client takes exactly one dump off its connection if and only if the dump has at most 100000
  packets (`ClientConnection.Snapshot`), and loses no neighbour if and only if there are at most 65536
  (`ClientConnection.SnapshotRoundTrip`).
- A handler whose deregistration fails is registered with its new manager all the same, and its old one
  keeps it: back pointers and registries then disagree, exactly in that case
  (`EventManagerObject.AddAgrees`). Even so no event reaches a wrong handler
  (`EventManagerObject.StaleEvents`).
- `Update` starts or shortens the fast phase when a device goes down and leaves it alone when the device
  comes back, the reverse of the constructor. Ticks are ignored while the device is down, so the phase is
  run after the recovery. Without new neighbours in the meantime it is if and only if the fast counter was
  not exactly one when the device went down (`SenderRecovery.FastOnRecoveryIff`); the frames then leave at
  seconds known exactly (`SenderRecovery.BouncedSchedule`).

## Model

| member | source | states |
|---|---|---|
| LldpSenderObject.LldpSender.constructor | source/include/lldp_sender.hh:21-31 | a sender on an operational device has started the fast phase, one on another device is idle |
| LldpSenderObject.LldpSender.Update | source/src/lldp_sender.cc:18-53 | the field-by-field copying amounts to replacing the record except MAC and index; any difference is announced, and only going down touches the fast counter, as a new neighbour does |
| LldpSenderObject.LldpSender.SendLldp | source/src/lldp_sender.cc:161-180 | one attempt is logged if the device has a MAC and a representable index, none otherwise; only ENETDOWN takes the device down |
| LldpSenderObject.LldpSender.EndTransmission | source/src/lldp_sender.cc:182-188 | at most one frame with time to live zero |
| LldpSenderObject.LldpSender.TryTransmit | source/src/lldp_sender.cc:190-198 | a pending trigger and a credit are spent together on one frame |
| LldpSenderObject.LldpSender.TriggerTransmission | source/src/lldp_sender.cc:200-212 | the timer restarts with the interval of the current phase and the trigger is pending or spent |
| LldpSenderObject.LldpSender.TimerExpired | source/src/lldp_sender.cc:213-220 | the fast phase gets shorter by one before the trigger |
| LldpSenderObject.LldpSender.NewNeighbour | source/src/lldp_sender.cc:221-228 | a fast phase is started if none is running, and its first step is taken |
| LldpSenderObject.LldpSender.ReplenishCredits | source/src/lldp_sender.cc:239-242 | the comparison in 64 bits and the addition in 16, wrap-around included |
| LldpSenderObject.LldpSender.Tick | source/src/lldp_sender.cc:235-254 | the nested calls and the two transmission opportunities of a tick amount to a single opportunity, taken if the trigger was pending or the timer has run out |
| SenderRuns.StepPays | source/src/lldp_sender.cc:190-254 | every event pays for its frames with credits, keeps the bounds, and a tick sends at most one frame |
| SenderRuns.RateBound | source/src/lldp_sender.cc:190-254 | in every window of every run the frames sent plus the credits left are at most the credits at its start plus the seconds ticked; all carry the target time to live |
| SenderRuns.ReachableIsBounded | source/src/lldp_sender.cc:11-16 | in every reachable state credits are at most 5, the fast counter at most 4, the timer at most 6 |
| SenderRuns.HealthyStep | source/src/lldp_sender.cc:190-254 | with ticks of at most five seconds a step leaves nothing pending unless the credits are spent, and sends or lets the quiet time grow with the seconds |
| SenderRuns.AddedIsHealthy | source/src/lldp_repository.cc:61-65 | a sender added for an operational device starts in such a state |
| SenderRuns.RestoredIsHealthy | source/src/lldp_sender.cc:36-52 | so does one that was down, whatever took it down, when an update makes it operational |
| SenderRuns.MaximumSilence | source/src/lldp_sender.cc:190-254 | over any run with local changes and any network, a window without a frame lasts at most five seconds |
| SenderRuns.MaximumGap | source/src/lldp_sender.cc:190-254 | consecutive frames are at most 5 seconds plus the longest tick apart |
| SenderRuns.LongTicksStarve | source/src/lldp_sender.cc:239-242 | without credits and with only empty or longer ticks no frame is ever sent again |
| SenderRuns.WaitingSendsIff | source/src/lldp_sender.cc:235-254 | a frame that waits for a credit is sent if and only if a tick of one to five seconds finds the device operational, over every run and network |
| SenderRuns.EverSentIff | source/src/lldp_repository.cc:61-65 | so a new sender has ever sent if and only if its device can send and there was such a tick |
| SenderRuns.ShortTickIff | source/src/lldp_sender.cc:235-254 | while updates keep the device operational, that is any tick of one to five seconds |
| SenderRuns.ScheduleStep | source/src/lldp_sender.cc:200-254 | one second on a schedule |
| SenderRuns.ExactSchedule | source/src/lldp_sender.cc:200-254 | under one-second ticks frames leave at seconds 1..k and k + 6j, k = 0 included, and at no others but a pending one at the first |
| SenderRuns.AddedSchedule | source/src/lldp_repository.cc:61-65 | a sender added for an operational device sends at seconds 1, 2, 8, 14 and so on |
| SenderFrames.StepTells | source/src/lldp_sender.cc:161-180 | every frame an event sends carries the device, MAC, index, name and addresses, as it is after the event |
| SenderFrames.SendsNeed | source/src/lldp_sender.cc:163-168 | nothing is sent without a MAC or a representable index; every frame but a farewell asks for thirty seconds |
| SenderFrames.StepOperational | source/src/lldp_sender.cc:170-177 | ENETDOWN, and it alone, takes a device down without an update |
| SenderFrames.UpdateAnnounces | source/src/lldp_sender.cc:18-53 | an update that changes nothing has no effect; any other restarts the interval and announces the change by one frame, two when the device goes down, or leaves pending what the credits do not pay for |
| SenderFrames.TriggerAnnounces | source/src/lldp_sender.cc:200-228 | the same of a local change and of a new neighbour |
| SenderFrames.RunFresh | source/src/lldp_sender.cc:18-53 | over every run and network, unless something is pending the last frame carries the device as the updates have left it |
| SenderFrames.SettledTruth | source/src/lldp_sender.cc:235-254 | nothing stays pending beyond a tick of one to five seconds |
| SenderFrames.ReplenishCases | source/src/lldp_sender.cc:239-242 | credits after any tick, one that wraps the 64-bit sum included |
| SenderFrames.IdleSaves | source/src/lldp_sender.cc:235-254 | a sender at rest saves a credit a second up to five |
| SenderFrames.BurstSpends | source/src/lldp_sender.cc:190-212 | a burst of changes sends as many frames as there are credits |
| SenderRecovery.UpdateFast | source/src/lldp_sender.cc:36-48 | an update touches the fast counter if and only if it takes the device down |
| SenderRecovery.DownRun | source/src/lldp_sender.cc:235-254 | over any run while the device is down the fast counter is frozen but for new neighbours |
| SenderRecovery.RecoverySchedule | source/src/lldp_sender.cc:36-52 | however a device went down, after it comes back frames leave exactly at seconds 1..k and k + 6j, for the k its fast counter was left at |
| SenderRecovery.FastOnRecoveryIff | source/src/lldp_sender.cc:39-46 | the fast phase runs on recovery if and only if the counter is not zero by then; without new neighbours, if and only if it was not one at the loss |
| SenderRecovery.BouncedSchedule | source/src/lldp_sender.cc:36-52 | the schedule of a sender that is taken down and brought back by updates: k is 3 from rest, otherwise one less than the counter was |
| SenderRecovery.FirstUpSchedule | source/src/lldp_repository.cc:61-65 | a sender added for a device that is down runs a fast phase of three when it first comes up |
| LldpPacket.TlvRoundTrip | source/src/lldp_packet.cc:20-51 | a TLV survives printing and parsing if and only if its type fits seven bits and its length nine |
| LldpPacket.HeaderBits | source/src/lldp_packet.cc:20-24 | bit by bit, for any length: nine bits of it, and above them seven in which the rest is or-ed into the type |
| LldpPacket.ParseAfterPrint | source/src/lldp_packet.cc:66-129 | parsing a printed unit followed by any bytes gives the unit back if and only if it fits |
| LldpPacket.ParsedUnitFits | source/src/lldp_packet.cc:79-129 | whatever parses has the mandatory types in place and fits |
| LldpPacket.PrintAfterParse | source/src/lldp_packet.cc:66-129 | printing what was parsed reproduces, up to the end marker, the front of the input |
| LldpPacket.ParsesIff | source/src/lldp_packet.cc:29-51 | a TLV parses at the front of a span exactly if it fits and its print is there |
| LldpPacket.TlvFromSpan | source/src/lldp_packet.cc:29-51 | the TLV taken and the remaining span make up the span; nothing is consumed exactly if no print of a TLV is at the front |
| LldpPacket.TlvsFromSpan | source/src/lldp_packet.cc:114-122 | the loop terminates and finds the optional TLVs up to the end marker or the first failure |
| LldpPacket.UnitFromSpan | source/src/lldp_packet.cc:79-129 | the three mandatory TLVs and the loop compute the recursive parse |
| LldpPacket.UnitBufferSize | source/src/lldp_packet.cc:55-64 | the accumulated size is the length of the printed unit |
| LldpPacket.TlvToBuffer | source/src/lldp_packet.cc:20-27 | the printed TLV is written at the position, the position advanced past it, and nothing else in the buffer changed |
| LldpPacket.UnitToBuffer | source/src/lldp_packet.cc:66-77 | the same for a unit |
| LldpMonitor.LldpduToNeighbourEntry | source/src/lldp_monitor.cc:53-88 | the loop keeps the address of the last TLV that carries one, per family |
| LldpMonitor.ManagementGrammar | source/src/lldp_monitor.cc:9-51 | byte for byte which values are read as an address of which kind, and no others |
| LldpMonitor.LastWins4 | source/src/lldp_monitor.cc:59-80 | of several addresses of a family the last wins |
| LldpMonitor.LastWins6 | source/src/lldp_monitor.cc:59-80 | likewise |
| LldpMonitor.AcceptedIff | source/src/lldp_monitor.cc:90-124 | exactly which frames are accepted, and from which interface |
| LldpMonitor.FrameHistory | source/src/lldp_monitor.cc:90-126 | after any raw frames from any addresses and any ticks, the table is well formed and holds for every key what the latest accepted frame and the ticks since say |
| LldpMonitor.NeighbourList.FrameParser | source/src/lldp_monitor.cc:90-126 | an accepted frame replaces the entry under its own identifiers, any other leaves the table as it is |
| LldpMonitor.NeighbourList.DecrementAll | source/src/lldp_monitor.cc:191-206 | first phase: everything is decremented and exactly the timed-out keys are collected, in any order |
| LldpMonitor.NeighbourList.EraseAll | source/src/lldp_monitor.cc:207-214 | second phase: the collected keys and the chassis left empty are gone |
| LldpMonitor.PhasesAge | source/src/lldp_monitor.cc:189-215 | the two phases together are the ageing filter |
| LldpMonitor.NeighbourList.Tick | source/src/lldp_monitor.cc:189-215 | the in-place tick equals the ageing filter and keeps the table well formed |
| NeighbourTable.LookupAge | source/src/lldp_monitor.cc:189-215 | ageing seen through one key |
| NeighbourTable.AgeIsAdditive | source/src/lldp_monitor.cc:189-215 | ageing by a and then by b is ageing by a + b |
| NeighbourTable.SameLookups | source/include/lldp_monitor.hh:65-70 | a well-formed table is determined by its lookups |
| NeighbourTable.HistoryWellFormed | source/src/lldp_monitor.cc:90-126 | after any history no chassis is empty and entries lie under their own identifiers |
| NeighbourTable.TableHistory | source/src/lldp_monitor.cc:189-215 | after any frames and ticks an entry is present exactly if no tick followed its latest frame or the later ticks sum to less than its time to live, which is reduced by that sum |
| FrameMeaning.CreateOptionalTlvs | source/src/lldp_sender.cc:65-95 | the management addresses of a device, the MAC only when it has no other |
| FrameMeaning.FillBuffer | source/src/lldp_sender.cc:138-147 | header and unit fill their buffer exactly, so the write is never incomplete |
| FrameMeaning.BuildFrame | source/src/lldp_sender.cc:114-159 | the buffer holds the frame of the device |
| FrameMeaning.FrameAddressed | source/src/lldp_sender.cc:120-124 | destination, source and type of every frame, and the data unit behind them |
| FrameMeaning.ManagementInterface | source/src/lldp_sender.cc:55-63 | a management value numbers the interface and has no object identifier |
| FrameMeaning.AnnouncedAddresses | source/src/lldp_sender.cc:65-95 | a frame announces exactly the device's IP addresses, or its MAC address if it has none |
| FrameMeaning.ManagementMeaning | source/src/lldp_monitor.cc:9-51 | a built management value is read back as the address it was built from |
| FrameMeaning.OptionalMeaning | source/src/lldp_monitor.cc:59-78 | the addresses read back are the device's, present or absent |
| FrameMeaning.EndToEnd | source/src/lldp_sender.cc:55-136 | a frame built, printed, stripped, padded, parsed and interpreted says exactly what the sender knew, if and only if the machine id fits |
| KeepAlive.HearStep | source/src/lldp_sender.cc:190-254 | a step of the sender keeps the bound on the receiver's age: a frame resets it, a lost one costs a gap |
| KeepAlive.JointStepKeeps | source/src/lldp_monitor.cc:189-215 | so does every joint step, with the two clocks advancing in either order |
| KeepAlive.NeverForgotten | source/src/lldp_sender.cc:190-254 | while the bound holds the receiver never drops the sender, over every run |
| KeepAlive.KeepAlive | source/src/lldp_monitor.cc:189-215 | from any frame heard on, whatever the link lost or the network answered before, with ticks of at most five seconds, as long as one more gap than frames lost in a row, and one tick, fit in the time to live: three losses at one-second ticks, one at five |
| KeepAlive.Unheard | source/src/lldp_monitor.cc:189-215 | when nothing arrives any more, through any updates, outages and ticks, the entry stays exactly until a tick brings the time passed to its time to live |
| LinkFreshness.FrameTeaches | source/src/lldp_monitor.cc:90-126 | after any event whose last frame arrives, the receiver knows the sender's own addresses |
| LinkFreshness.KnownTruth | source/src/lldp_monitor.cc:90-126 | over any run with updates, outages and losses: as long as nothing is pending and the last frame has arrived, a known sender is known by exactly the addresses its device has |
| LldpRepositoryObject.UpdateCopies | source/src/lldp_sender.cc:18-53 | after an update name and addresses are the new ones, MAC and index the old |
| LldpRepositoryObject.FarewellSent | source/src/lldp_sender.cc:182-188 | one farewell if the device can send, none otherwise |
| LldpRepositoryObject.Reconciliation | source/src/lldp_repository.cc:52-79 | exactly one sender for each device of the snapshot, with its name and addresses; exactly one farewell for each vanished device that can send, and no other |
| LldpRepositoryObject.LldpRepository.UpdateOne | source/src/lldp_repository.cc:54-66 | a known device is updated, a new one added and told of a neighbour |
| LldpRepositoryObject.LldpRepository.CreateLldpStateMachine | source/src/lldp_repository.cc:43-50 | a known index is told of a new neighbour, an unknown one ignored |
| LldpRepositoryObject.LldpRepository.DeleteLldpStateMachine | source/src/lldp_repository.cc:34-41 | the farewell comes before the sender is forgotten; an unknown index is ignored |
| LldpRepositoryObject.LldpRepository.UpdateState | source/src/lldp_repository.cc:52-79 | the loops compute the reconciled senders, in any order of iteration |
| LldpRepositoryObject.LldpRepository.Tick | source/src/lldp_repository.cc:81-91 | the device repository and every sender tick once, in any order of the senders |
| LldpRepositoryObject.LldpRepository.OnAddressPacket | source/include/lldp_repository.hh:18-24 | the end of an address dump reconciles the senders with the device table |
| LldpRepositoryRuns.RepoRuns | source/src/lldp_repository.cc:81-91 | the device repository runs as it does alone, so its properties hold of whole runs |
| LldpRepositoryRuns.StepSound | source/src/lldp_repository.cc:52-91 | every packet, tick and failure keeps the senders those of the latest snapshot |
| LldpRepositoryRuns.SendersFollow | source/src/lldp_repository.cc:52-91 | in every run there is exactly one sender for each device of the latest snapshot, with its name and addresses, within its bounds, that has sent from its own interface and MAC address only |
| LldpRepositoryRuns.SendersComeFromDumps | source/src/device_repository.cc:55-82 | every sender stems from a synchronisation that a completed device dump precedes |
| LldpRepositoryPorts.PortRuns | source/src/lldp_repository.cc:52-91 | a port that stays in the snapshots runs as its sender does alone, on the ticks and its snapshots |
| LldpRepositoryPorts.PortIsSenderRun | source/src/lldp_repository.cc:52-91 | in every run each port is the run of one sender, added by the synchronisation that first handed its device out |
| LldpRepositoryPorts.PortRateBound | source/src/lldp_sender.cc:190-254 | the rate bound of every port in every window of every run of the whole |
| LldpRepositoryPorts.PortSilence | source/src/lldp_sender.cc:190-254 | the longest silence of a port, whatever goes on around it |
| LldpRepositoryPorts.PortEverSent | source/src/lldp_sender.cc:235-254 | a port has ever sent if and only if its device can send and a short tick since its birth found it operational; never more frames than seconds |
| DumpReading.LinkLearned | source/src/device_repository.cc:143-184 | a reported link, among attributes of other kinds, teaches the table what was reported |
| DumpReading.AddressLearned | source/src/device_repository.cc:186-222 | so does a reported address |
| DumpReading.SplitsAreEqual | source/src/netlink_monitor.cc:261-277 | however messages are split over batches, the same views are delivered |
| DumpReading.DumpsToSnapshot | source/src/device_repository.cc:55-82 | the bytes of a link dump and of the address dump it leads to synchronise once, with what was known plus exactly what was reported |
| DumpReading.LinksKnown | source/src/device_repository.cc:149-183 | a link reported once is known as reported, and its addresses as they were |
| DumpReading.AddressesKnown | source/src/device_repository.cc:199-220 | the address known is the last reported for its device and family that is not secondary |
| DumpReading.DumpsToSenders | source/src/lldp_repository.cc:52-79 | after both dumps there is exactly one sender for each device known or reported, with the name and addresses reported last |
| ClientWire.WireRoundTrip | source/include/client.hh:34-99 | every entry that fits survives its packet, an interface name up to its first zero |
| ClientSnapshot.FoldEntry | source/src/client.cc:494-533 | the packets of one neighbour write exactly one device, whatever was under its number before |
| ClientSnapshot.FoldDump | source/src/client.cc:322-362 | folding a dump overlays exactly the devices it means under consecutive 16-bit numbers |
| ClientSnapshot.SeenIsTold | source/src/client.cc:254-272 | the chassis of a neighbour arrives if it fits, and the chassis counter needs no bound while all do |
| ClientSnapshot.OverlayAt | source/src/client.cc:322-362 | a number stands for the last neighbour that took it |
| ClientSnapshot.AllDelivered | source/src/client.cc:322-362 | with at most 65536 neighbours the keys are 0 to n - 1 and key i holds the i-th |
| ClientSnapshot.NoneLostIff | source/src/client.cc:324-325 | no neighbour is lost if and only if there are at most 65536 |
| ClientWire.PacketLayout | source/include/client.hh:34-99 | type numbers and field positions of all five entries |
| ClientSnapshot.LocalNameTold | source/src/client.cc:295-320 | the interface name told is that of the device on which the neighbour was heard |
| ClientConnection.DumpPackets | source/src/client.cc:322-362 | every packet carries its request's id and one entry, the end marker none |
| ClientConnection.DumpReads | source/src/client.cc:101-134 | a delivered dump reads as its messages and one stop |
| ClientConnection.DrainItems | source/src/client.cc:535-559 | reading folds the entries one by one and stops at the limit |
| ClientConnection.Snapshot | source/src/client.cc:535-559 | one read takes exactly one dump if and only if the dump is within the limit, and then rebuilds what it means |
| ClientConnection.SnapshotRoundTrip | source/src/client.cc:322-362 | no neighbour is lost if and only if the numbers suffice; then key i of the client's map is the i-th neighbour, provided the chassis numbers tell the chassis apart, as they do in every listing of a table |
| ClientTable.ListingCovers | source/src/client.cc:326-361 | iterating over the two levels goes through every key of the table exactly once |
| ClientTable.TableRoundTrip | source/src/client.cc:322-362 | in whatever order the maps are iterated over, the client's map and the neighbour table correspond one to one if and only if there are at most 65536 neighbours |
| ClientConnection.StreamAlignment | source/src/client.cc:535-559 | over any requests on one connection the i-th read returns what the i-th dump means |
| ClientConnection.ClientSenderSocket.SendChassisEntryPacket | source/src/client.cc:254-272 | one entry, or none when the identifier does not fit |
| ClientConnection.ClientSenderSocket.SendEntry | source/src/client.cc:274-356 | the packets of one neighbour: port, interface name if known, addresses if present |
| ClientConnection.ClientSenderSocket.DumpData | source/src/client.cc:322-362 | the nested loops with their two counters send exactly the dump |
| ClientConnection.ReadMeaning | source/src/client.cc:101-134 | an encoded entry comes back as a client sees it; any other type and every error but EAGAIN stop the loop |
| ClientConnection.ClientReceiverSocket.ProcessDataPacket | source/src/client.cc:494-533 | the two maps after one entry |
| ClientConnection.ClientReceiverSocket.GetData | source/src/client.cc:535-559 | the loop reads what the fold says, consumes exactly the packets it read, and advances the request id |
| NetlinkFraming.AttributesRoundTrip | source/src/netlink_monitor.cc:30-49 | laid-out attributes are parsed back, each with exactly its value |
| NetlinkFraming.ViewKinds | source/src/netlink_monitor.cc:107-153 | exactly which message types are viewed as links, addresses, ends and errors |
| NetlinkFraming.ViewRoundTrip | source/src/netlink_monitor.cc:107-153 | a laid-out message is viewed as what was laid out, by its type |
| NetlinkFraming.MessageRoundTrip | source/src/netlink_monitor.cc:219-231 | a message laid out in front of a batch is taken off exactly, and the rest is left |
| NetlinkFraming.BatchRoundTrip | source/src/netlink_monitor.cc:219-277 | a batch delivers exactly its messages, in order |
| NetlinkFraming.ParseTlvs | source/src/netlink_monitor.cc:30-49 | the loop over the shrinking remainder terminates and finds the attributes |
| NetlinkFraming.PacketViewParser | source/src/netlink_monitor.cc:107-153 | the view of a message by its type |
| NetlinkFraming.Call | source/src/netlink_monitor.cc:261-277 | the loop terminates and hands over the views of the batch in order |
| DumpReader.StepConsistent | source/src/device_reader.cc:58-122 | every step keeps the reader in agreement with the signals it has given |
| DumpReader.Conservation | source/src/device_reader.cc:58-122 | in every run requests sent = completed + failed or timed out + superseded + open |
| DumpReader.NoStaleReplies | source/src/device_reader.cc:81-100 | before the numbers wrap, a message handed on belongs to the latest request sent |
| DumpReader.NumbersSpent | source/src/netlink_monitor.cc:279-335 | every request that gets as far as the socket spends one number |
| DumpReader.FailedTrigger | source/src/device_reader.cc:64-79 | a request that cannot be sent leaves the open one open and gives it five more seconds |
| DumpReader.ReplyEffect | source/src/device_reader.cc:81-122 | exactly which replies hand over, complete or fail, and that no other has an effect |
| DumpReader.TimesOutExactly | source/src/ip_reader.cc:27-45 | an unanswered request fails at the first tick that reaches its timeout, whatever else arrives |
| DumpReader.RequestStartsTimeout | source/src/ip_reader.cc:63-78 | that is five seconds after it was sent |
| DumpReader.DumpReaderObject.Tick | source/src/device_reader.cc:27-45 | refines the tick of the state machine |
| DumpReader.DumpReaderObject.TriggerDump | source/src/device_reader.cc:64-79 | the timeout restarts even if sending fails; only a request that was sent is opened |
| DumpReader.DumpReaderObject.HandleNetlinkPacket | source/src/device_reader.cc:81-122 | only replies to the open request have an effect |
| DeviceRepository.TableFrame | source/src/device_repository.cc:143-222 | a message changes one device, and there only what its kind is about; no device is dropped |
| DeviceRepository.Reachable | source/src/device_repository.cc:113-132 | every reachable state keeps the orders, the timer and the readers' histories |
| DeviceRepository.SyncTotals | source/src/device_repository.cc:55-82 | in every run syncs <= address dumps issued <= device dumps completed <= device dumps issued |
| DeviceRepository.DumpBeforeSync | source/src/device_repository.cc:55-82 | before every sync, the first included, a device dump completes with no other sync in between |
| DeviceRepository.SyncOrdering | source/src/device_repository.cc:55-82 | so a device dump completes between any two syncs |
| DeviceRepository.ResyncTimer | source/src/device_repository.cc:113-132 | a device dump is attempted exactly when the seconds since the timer was set reach 2 after a monitor packet or reader error, 120 after an attempt; after the first tick the timer is in 1..120 |
| DeviceRepository.ReadersConserve | source/src/device_repository.cc:23-53 | both readers conserve their requests in every run of the repository |
| DumpOutcomes.DeviceDumpFails | source/src/device_repository.cc:60-64 | an error report fails the open device dump: nothing is learned, no addresses are asked for, and a resync is due in two seconds |
| DumpOutcomes.AddressDumpFails | source/src/device_repository.cc:78-82 | it fails the open address dump likewise, and nothing is synchronised |
| DumpOutcomes.DeviceDumpEnds | source/src/device_repository.cc:55-58 | the end of a device dump asks for the addresses |
| DumpOutcomes.AddressDumpEnds | source/src/device_repository.cc:66-76 | the end of an address dump hands the table out as it is |
| DumpOutcomes.DevicePacketIgnored | source/src/device_reader.cc:81-122 | a packet that does not answer, or is of another kind, changes nothing |
| DumpOutcomes.AddressPacketIgnored | source/src/ip_reader.cc:80-121 | likewise |
| DumpOutcomes.LinksIgnored | source/src/device_repository.cc:145-148 | only new links of Ethernet devices are learned from |
| DumpOutcomes.AddressesIgnored | source/src/device_repository.cc:188-198 | only new primary addresses of the two families are learned from |
| DumpOutcomes.LastNameWins | source/src/device_repository.cc:153-162 | the name is the last that holds more than one byte, without its terminating zero |
| DumpOutcomes.RunClocks | source/src/device_repository.cc:113-121 | in every run both readers have been told of all the time that has passed |
| DumpOutcomes.TickNotes | source/src/device_repository.cc:113-132 | what a tick reports, in order, and when it attempts the next dump |
| DumpOutcomes.LostDeviceReply | source/src/device_reader.cc:27-45 | a device dump whose reply is lost fails at exactly the tick that reaches its timeout, whatever else arrives, and the next attempt is brought forward |
| DumpOutcomes.LostAddressReply | source/src/ip_reader.cc:27-45 | likewise an address dump |
| DumpOutcomes.RequestsHaveFiveSeconds | source/src/device_reader.cc:64-79 | that is five seconds after it was requested |
| DeviceRepositoryObject.Repository.Tick | source/src/device_repository.cc:113-132 | the readers tick first, then the timer; refines the state machine |
| DeviceRepositoryObject.Repository.HandleLinkPacket | source/src/device_repository.cc:143-186 | the loop keeps the last whole MAC address and the last name, without its terminating zero |
| DeviceRepositoryObject.Repository.HandleAddressPacket | source/src/device_repository.cc:188-222 | the loop keeps the last whole address of the message's family |
| DeviceRepositoryObject.Repository.OnDevicePacket | source/src/device_repository.cc:55-64 | the callbacks of the device reader: table, chained address dump, expedited resync |
| DeviceRepositoryObject.Repository.OnAddressPacket | source/src/device_repository.cc:66-82 | the callbacks of the address reader; the end of its dump hands out the devices |
| EventManagerObject.CounterIsFree | source/src/event_handlers.cc:71-74 | the counter itself is free, so the search for a handle never has to skip one |
| EventManagerObject.StepIsRecorded | source/src/event_handlers.cc:61-107 | whatever epoll answers, every step keeps registered handles below the counter and given out once, to the handler they stand for |
| EventManagerObject.RunIsRecorded | source/src/event_handlers.cc:18-154 | so does every run, and handles once given out stay on record |
| EventManagerObject.GoneForGood | source/src/event_handlers.cc:83-105 | a handle that is no longer registered is never registered again, wherever its epoll instance moves |
| EventManagerObject.StaleEvents | source/src/event_handlers.cc:142-153 | an event, however old, is dispatched to the handler its handle was given to if and only if that is still registered and live, and to none otherwise |
| EventManagerObject.AddAgrees | source/src/event_handlers.cc:61-87 | adding a handler keeps back pointers and registries in agreement if and only if it was on no manager, was deregistered, or is not accepted |
| EventManagerObject.ReachableAgrees | source/src/event_handlers.cc:18-107 | in every run each live handler's back pointer and handle agree with the registries in both directions, if changing managers deregisters |
| EventManagerObject.HandlerReached | source/src/event_handlers.cc:142-153 | a live handler is the target of the handle it holds |
| EventManagerObject.ReachableReached | source/src/event_handlers.cc:142-153 | in every run, if changing managers deregisters |
| EventManagerObject.AddedIsServed | source/src/event_handlers.cc:83-86 | a handler that is added and accepted is dispatched to under its handle |
| EventManagerObject.RunServes | source/src/event_handlers.cc:118-154 | no event is lost: it goes on being dispatched to, whatever other handlers do and wherever its epoll instance moves, until it is taken off, destroyed or added again |
| EventManagerObject.FirstFree | source/src/event_handlers.cc:71-74 | the handle found is the first free one |
| EventManagerObject.AddOutcome | source/src/event_handlers.cc:61-87 | an addition in a run is the one the object performs |
| EventManagerObject.RefusalOutcome | source/src/event_handlers.cc:78-82 | a refused addition spends no handle |
| EventManagerObject.RemoveOutcome | source/src/event_handlers.cc:89-107 | exactly when a removal succeeds, and what it leaves |
| EventManagerObject.DestroyOutcome | source/include/event_handlers.hh:89-99 | a destroyed handler is on no registry |
| EventManagerObject.ForgetOutcome | source/src/event_handlers.cc:120-135 | processing forgets exactly the handlers that are not live |
| EventManagerObject.MoveOutcome | source/src/event_handlers.cc:18-31 | the manager moved from is empty, the new one has taken over everything |
| EventManagerObject.EventManager.Add | source/src/event_handlers.cc:61-87 | of all managers and handlers, exactly these two and the one left change, as the transition system says |
| EventManagerObject.EventManager.SkipRegistered | source/src/event_handlers.cc:71-74 | the search terminates at the first free handle |
| EventManagerObject.EventManager.Remove | source/src/event_handlers.cc:89-107 | only the named handle goes, and its live handler is detached; a failed deregistration changes nothing |
| EventManagerObject.EventManager.Move | source/src/event_handlers.cc:18-31 | the live handlers follow the registry in any order of the loop, the old manager is empty |
| EventManagerObject.EventManager.ForgetExpired | source/src/event_handlers.cc:120-135 | exactly the expired handlers are forgotten |
| EventManagerObject.EventManager.ProcessEvents | source/src/event_handlers.cc:118-154 | the expired handlers are forgotten first, then each ready handle goes to its target |
| EventManagerObject.EventHandler.Destroy | source/include/event_handlers.hh:89-99 | a destroyed handler is forgotten by its manager |

The address reader has the same code as the device reader; `DumpReader` models both, and the rows
above cite one or the other.

## Left out

- LldpMonitor.NeighbourList.FrameParser: does not model a time-to-live TLV of fewer than two bytes,
  which the code reads without a check.
- ClientConnection.SnapshotRoundTrip: does not cover ports above 506 bytes or interface names above 16,
  which the code copies without a check.
- NetlinkFraming.Call: does not model batches and messages outside the alignment and sizes listed
  under the assumptions.
- NetlinkFraming.PacketViewParser: an error report is a tag; its contents and attributes, which nobody reads,
  are not modelled.
- DumpReader.NoStaleReplies: the sequence number is taken modulo 2^32; the signed overflow on the way
  is undefined in the source.
- LldpRepositoryObject.LldpRepository.UpdateState: the senders share one socket, but each keeps its own
  log, so the order of frames of different devices is not modelled.
- EventManagerObject.RunIsRecorded: does not model a handle counter that wraps at 64 bits, move assignment
  and the destructor of a manager, and the move of a handler; what a dispatched handler does to the
  registry during `ProcessEvents` counts as further steps.
- Sockets, timers, signals, locks and files: their results are parameters of the model.
- Receiving of batches and frames into growing buffers: no property beyond the calls themselves.
- The iteration order of the client dump is an input: the groups are given in the order of the maps.
- Removal of closed client connections, argument handling, logging and display: easy members only.
- File descriptor ownership and the move operations of readers and repositories: plumbing.

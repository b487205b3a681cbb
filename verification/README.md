# LLDP agent core: model and proofs

This project models the core of the LLDP agent: the receive and transmit state machines of IEEE 802.1AB
(sections 10.5.5.3 and 10.5.4.3), the TTL-aged neighbour cache, the TLV frame codec (section 9.4.1), and the
master/slave address assignment on top of them. `dafny verify dfyconfig.toml` checks everything.

Each piece that the agent updates in place is a heap class whose methods are proved against a pure function, and
the properties are proved about those functions, over all inputs and all runs.

| file | content |
|---|---|
| `Bytes.dfy` | bytes, `memcpy`, `memset` |
| `TlvFormat.dfy` | TLVs, their wire form, what each constructor and builder produces |
| `Layout.dfy` | both frames byte for byte, independently of the constructors and constants |
| `TlvBuild.dfy` | the constructors, the TLV list and flattening, step by step in the heap |
| `Parser.dfy` | the receive loop pass by pass, its fold over decoded TLVs, and what the fold means |
| `RoundTrip.dfy` | built frames parse back |
| `Neighbours.dfy` | the cache as a list and as the finite map it stands for |
| `LinkedList.dfy`, `MsapCache.dfy` | the cache in the heap, edited in place |
| `RxSpec.dfy`, `RxRuns.dfy` | one run of the receive machine; ageing, latency and conservation over whole runs |
| `TxSpec.dfy`, `TxRuns.dfy` | one run of the transmit machine; spacing and shutdown over whole runs |
| `KeepAlive.dfy` | sender and receiver composed, frames as bytes |
| `Allocation.dfy` | the address allocator shared by all ports of a master |
| `EndToEnd.dfy` | address assignment from master to slave; ids identify senders |
| `Port.dfy` | a port with its buffers: the methods that do all of this in place |
| `Threads.dfy` | the receive and the transmit thread over all ports, event by event over bytes; that they do not interfere |
| `ThreadRuns.dfy` | these events as the runs that `RxRuns`, `TxRuns` and `Allocation` are about |
| `Delivery.dfy` | what is processed is what was read, and when |
| `Steps.dfy` | each kind of event in terms of machine steps and bytes alone: what it does, when it is survived, ageing in seconds |
| `Wire.dfy` | what really went out, read back with the parser: own information, addresses for neighbours, shutdown |
| `Agent.dfy` | both threads on the heap, from initialisation on, for any number of ports that share one pool |
| `Start.dfy` | the state that initialisation leaves, and the transmit timing that follows from it |

## Conventions

- One call of `rxStatemachineRun` or `txStatemachineRun` is one atomic step, and time is counted in such runs. Between
  runs the environment may deliver a frame, change `portEnabled` and `adminStatus`, or report a local change.
- A frame enters the receive machine as a `Digest`: the TTL it carries, if any, and the neighbour it names, if any.
  `Port` computes it with the parser from the bytes in the buffer; `KeepAlive` and `EndToEnd` work on bytes throughout.
- Where the C code would loop forever the parser's verdict is `Spin`; where it would dereference NULL or leave a
  buffer the verdict is `Crash`. A method whose source would leave a buffer returns false instead, and its contract
  says exactly when. Run-level theorems quantify over runs the agent survives; `Port.LldpPort.RxStatemachineRun`,
  `Port.LldpPort.TxStatemachineRun` and `Agent.RunAgent` say exactly which those are.
- In `Threads` an event is something the thread could act on: a socket with something to read, a second that has
  passed, a transmit run that is due. Events come in any order, which covers the order in which the code visits its
  ports. While the receive thread is kept reading one port it attends to no other event; a frame it does not attend to
  waits in its socket, and may be the next event again.
- `ip` in a parsed frame starts as an arbitrary stack residue, because the source does not initialise it.

## Where the code departs from its evident intent

The model follows the code, and each departure is a theorem.

- A foreign vendor TLV takes a `continue` that skips the offset advance, so the loop re-reads it forever
  (`Parser.ReceiveLoopHaltsIff` gives the exact condition, `Parser.ForeignFrameSpins` a concrete frame).
- The socket hands over up to `mtu` bytes, and the receive buffer has `mtu - 4`: the longest frames are written past
  its end (`Port.LldpPort.ReadSocket`, and through it `Agent.RunEvents`).
- After a frame of another type the thread reads the same port again, without advancing, until that port's buffer
  shows an LLDP frame. Until then no receive machine of any port runs and no entry ages
  (`Threads.FrameKeepsReadingIff`, `Threads.ForeignStallsAll`).
- A failed read leaves -1 in `recvsize`, and the dump in the next run copies that many bytes. It is fatal iff the
  buffer shows the LLDP type (`Threads.FailedReadFatalIff`). A read of no bytes makes a pending frame count as empty
  (`Delivery.ProcessedIsHeard`).
- A frame whose first TLV is a port id dereferences NULL (`Parser.PortIdFirstCrashes`,
  `Parser.NoChassisFrameCrashes`).
- The builders write frames of any length into a transmit buffer of `mtu - 2` bytes (`Port.LldpPort.BuildFrame`), and
  consult no validator (`TlvFormat.BuiltTlvsValidIff`).
- A value longer than 511 bytes runs into the type bits of its header (`TlvFormat.HeaderRoundTripIff`).
- `explode_tlv` reads the header from the struct it has just zeroed. Reading it from the flat TLV would not be enough
  on a little-endian host: the code does not swap the bytes either (`TlvBuild.ExplodeUndoesFlattenIff`).
- The allocator's second increment is 8-bit too, so 255 is skipped but 0 is handed out (`Allocation.CursorLaw`).
- The shutdown action reloads its timer on every run (`TxRuns.ShutdownLeavesIff`), and its validity test is inverted,
  so a shutdown frame is all zero (`Port.LldpPort.DoTxShutdownFrame`).
- `interval * hold` is cut to 16 bits before it is compared with 65535 (`TxSpec.AdvertisedSaturatesIff`).
- The MSAP length has 8 bits (`Neighbours.KeyIsId`, `EndToEnd.LongNamesCollide`).
- `portEnabled` is set before the change to TX_LLDP_INITIALIZE, whose guard wants it clear (`TxSpec.TxGuardsHoldIff`);
  a port that the transmit thread finds as initialisation left it breaks the guard (`TxSpec.FirstRunBreaksGuard`).

Three statements go beyond what the agent itself can reach, because the only code that sets the transmit timers
(tx_sm.c:254-257) gives them the values 2, 4, 5 and 2: the cut product needs other settings
(`TxSpec.AdvertisedCanVanish` takes 256 and 256), leaving TX_SHUTDOWN_FRAME needs a `reinitDelay` below 2, and
`KeepAlive.KeepAliveIff` covers every setting, of which the initial ones are on the good side
(`KeepAlive.DefaultsOutlast`). Names of 250 bytes, which collide in the cache, are not reached either: interface names
have at most 31 bytes. Nor are values above 511 bytes: the system name and description are strings in arrays of 512
bytes (lldp_neighbor.h:8-9).

## Model

| member | source | states |
|---|---|---|
| TlvFormat.HeaderRoundTripIff | rx_sm.c:132-138 | the receive loop's header decoding recovers the type and length that flattening packed iff they fit 7 and 9 bits |
| TlvFormat.FlattenAllAppend | tx_sm.c:123-136 | writing TLVs one behind the other concatenates their flattened forms |
| TlvFormat.BuiltTlvsFit | tlv.c:643-661 | every TLV of both builders fits the 7-bit type and 9-bit length |
| TlvFormat.BuiltTlvsValidIff | tlv.c:256-292 | what the information builder makes passes all length validators iff the interface name has 1 to 255 bytes and the system strings at most 255 |
| TlvFormat.InfoFrameSize | tx_sm.c:140-143 | closed-form size of an information frame, which never needs padding |
| TlvFormat.SetIpFrameSize | tx_sm.c:222-225 | closed-form size of a set-IP frame, padded to 64 bytes |
| Layout.InfoLayout | tx_sm.c:35-144 | an information frame byte for byte, in literals and the port's fields: header, every TLV in order, End TLV |
| Layout.SetIpLayout | tx_sm.c:147-226 | a set-IP frame byte for byte, with its destination, its address and its padding to 64 bytes |
| TlvBuild.CreateChassisIdTlv | tlv.c:294-312 | fills subtype and MAC |
| TlvBuild.CreatePortIdTlv | tlv.c:320-341 | fills subtype and interface name |
| TlvBuild.CreateTtlTlv | tlv.c:349-363 | fills the TTL big-endian |
| TlvBuild.CreateManagementAddressTlv | tlv.c:474-524 | the twelve-byte management address |
| TlvBuild.CreateOwnTlv | tlv.c:551-567 | OUI, subtype and payload, the shape all vendor constructors share |
| TlvBuild.CreateWifiWorkingModeTlv | tlv.c:610-627 | MAC and the low byte of the working mode |
| TlvBuild.AddTlv | tlv_common.c:129-151 | appends to the linked list; a missing TLV changes nothing |
| TlvBuild.FlattenTlv | tlv_common.c:9-46 | allocates header and value bytes equal to the wire form, also where the length overlaps the type |
| TlvBuild.WriteTlvs | tx_sm.c:123-136 | the copy loop writes the concatenation of the flattened TLVs and touches nothing else, iff that fits the frame |
| TlvBuild.ExplodeTlv | tlv_common.c:154-188 | what exploding returns, given the header it really reads |
| TlvBuild.ExplodeUndoesFlattenIff | tlv_common.c:154-188 | exploding undoes flattening for the End TLV only; it always would with the flat header read in network order, and, read little-endian, only where the two header bytes are equal |
| Parser.ScanOwn | rx_sm.c:229-282 | the vendor switch, with its out-of-buffer reads as crashes |
| Parser.ScanPass | rx_sm.c:124-290 | one pass of the do-while body |
| Parser.ScanFrame | rx_sm.c:50-290 | the whole loop in place over the buffer: its verdict, for every buffer |
| Parser.PassAdvances | rx_sm.c:284 | a pass that neither halts nor repeats itself advances by at least 2 and stays inside the buffer |
| Parser.PassEndsIff | rx_sm.c:127-143 | a pass ends the loop well iff it starts beyond the received size or at a TLV of type 0 |
| Parser.OuiMeans | rx_sm.c:224 | the vendor test accepts exactly values that start with A4-FB-8D, and rejects on a byte that differs |
| Parser.LoopHaltsIff | rx_sm.c:124-290 | the loop, iterated pass by pass, halts iff the verdict is not `Spin`, and then with that verdict |
| Parser.ParseIsFold | rx_sm.c:124-290 | for every buffer the single pass equals decoding first and folding after |
| Parser.FoldMeaning | rx_sm.c:160-282 | the fold succeeds iff every TLV is harmless, and then its result is the last TTL, role and address, the first two wifi modules, the last MSAP id, and the neighbour flag iff some own TLV occurred and the roles are opposite |
| Parser.FoldSpinsIff | rx_sm.c:223-227 | the fold is caught iff a foreign vendor TLV follows harmless TLVs only |
| Parser.ReceiveLoopHaltsIff | rx_sm.c:223-290 | the source's loop terminates on a frame iff no foreign vendor TLV is reached |
| Parser.ForeignFrameSpins | rx_sm.c:223-227 | on a frame with one IEEE 802.1 vendor TLV no number of passes ends the loop |
| Parser.PortIdFirstCrashes | rx_sm.c:184-206 | every frame whose first TLV is a port id makes the parser leave its memory |
| Parser.NoChassisFrameCrashes | rx_sm.c:184-206 | one such frame |
| Parser.ParseMeaning | rx_sm.c:119-296 | what a whole frame parses to, well formed or not, from its decoded TLVs alone |
| RoundTrip.DecodeFlattened | rx_sm.c:132-146 | cutting a flattened list gives the list back, whatever follows |
| RoundTrip.InfoRoundTrip | tx_sm.c:35-144 | parsing an information frame recovers MSAP id, TTL, the low byte of the role, address and the first two wifi modules with the low bytes of their modes |
| RoundTrip.SetIpRoundTrip | tx_sm.c:147-226 | parsing a set-IP frame: it speaks for a master, and a slave configures exactly the address carried |
| Neighbours.KeyIsId | lldp_port.h:162-166 | the 8-bit length makes the key the whole id iff the id has at most 255 bytes |
| Neighbours.UpsertRefines | msap.c:276-313 | find-or-prepend is a map update: a hit changes only the TTL, a miss adds one entry, keys stay distinct |
| Neighbours.LiveRefines | rx_sm.c:384-412 | deletion is the map restricted to TTL above 0 |
| Neighbours.AgeRefines | rx_sm.c:449-465 | ageing decrements every entry of the map |
| Neighbours.TableSize | msap.c:280-311 | the list is as long as its map is large |
| MsapCache.DeleteObjects | rx_sm.c:384-412 | in-place deletion leaves an acyclic list of exactly the surviving nodes, in order, entries unmodified |
| MsapCache.SweepOne | rx_sm.c:390-411 | whenever a node is relinked, `tail` is the last kept node |
| MsapCache.UpdateMsapCache | msap.c:276-313 | in place: a hit refreshes the found node and keeps all nodes, a miss hangs one new node in front of them; returns the node that holds the neighbour |
| MsapCache.UpdateTimers | rx_sm.c:449-465 | in place: every TTL is decremented in the same nodes, and the result says whether any is 0 |
| RxSpec.UpdateRefines | rx_sm.c:331-334 | writing one entry of the list writes one entry of the map |
| RxSpec.RunRefines | rx_sm.c:583-665 | every run over the list is the corresponding run over the finite map |
| RxRuns.AlwaysGood | rx_sm.c:449-513 | over every run: keys distinct, and `rxInfoAge` set iff an expired entry is cached (in DELETE_INFO only "expired implies set") |
| RxRuns.NoExpiredInRxFrame | rx_sm.c:607-612 | RX_FRAME is entered only with no expired entry cached, so none is revived |
| RxRuns.TransitionsLegal | rx_sm.c:538-632 | every transition of a reachable run is one the guards accept, and no action state lasts two runs |
| RxRuns.EntryStep | rx_sm.c:583-665 | a run ages an unrefreshed entry by one and changes nothing else of it; an expired one is never refreshed |
| RxRuns.RefreshStep | rx_sm.c:305-346 | a refresh sets the TTL and keeps a cached neighbour's id, role, wifi modules and assigned address; a new neighbour is entered as its frame describes it |
| RxRuns.AfterRxFrame | rx_sm.c:583-623 | after RX_FRAME comes WAIT_PORT_OPERATIONAL if the port is down and nothing is expired, else DELETE_INFO for a TTL of 0, UPDATE_INFO if the frame named a neighbour, else waiting; a frame without TTL counts with the previous frame's |
| RxRuns.ListensIff | rx_sm.c:603-606 | RX_LLDP_INITIALIZE of an enabled port is left iff reception is enabled |
| RxRuns.NeverListens | rx_sm.c:603-606 | a port never enabled to receive never processes a frame and never caches anybody |
| RxRuns.RemoteChangeNotified | rx_sm.c:494-536 | `somethingChangedRemote` is set after every deletion or update and clear while waiting for or processing a frame |
| RxRuns.BoundedAgeing | rx_sm.c:583-665 | an entry set to TTL t in run k counts down, is cached at the end of run k+t-1, and is gone by the end of run k+t+2, under any port and admin changes |
| RxRuns.ZeroTtlRemoves | rx_sm.c:616-618 | a frame with TTL 0 removes its neighbour on the next run; every entry with time left survives |
| RxRuns.BoundedLatency | rx_sm.c:607-626 | with the port enabled a pending frame is processed within 2n+3 runs, n entries being cached |
| RxRuns.FramesConserved | rx_sm.c:502-523 | every frame that arrived is exactly one of processed, coalesced, dropped or pending; pending iff `rcvFrame`; processed in order, none twice |
| RxRuns.FrameCountsAddUp | rx_sm.c:502-523 | arrived = processed + coalesced + dropped + (1 if `rcvFrame` is set), at the end of every run |
| RxRuns.RxFrameProcesses | rx_sm.c:515-523 | every run that ends in RX_FRAME processes a frame |
| RxRuns.CacheIsTable | msap.c:276-313 | over all runs the cache is the map machine's map, also in size |
| TxSpec.AdvertisedSaturatesIff | tx_sm.c:446 | the advertised TTL saturates as intended iff the product fits 16 bits or its low 16 bits are all ones |
| TxSpec.AdvertisedCanVanish | tx_sm.c:446 | a product of 65536 is advertised as 0 |
| TxSpec.TxGuardsHoldIff | tx_sm.c:316-321 | a run's changes pass the guards iff the port was enabled or the machine was in TX_SHUTDOWN_FRAME |
| TxSpec.FirstRunBreaksGuard | main.c:486-507 | the first transmit run of a port as initialisation leaves it does not pass them |
| TxRuns.TransmitSpacing | tx_sm.c:323-345 | gaps between information frames: at least max(txDelay,1)+1, at most max(msgTxInterval,txDelay,1)+1, exactly the latter without local changes |
| TxRuns.NextInfoFrame | tx_sm.c:335-345 | the next information frame does come within the period |
| TxRuns.InfoFrameIsBrief | tx_sm.c:343-345 | TX_INFO_FRAME never lasts two runs |
| TxRuns.AdminDecides | tx_sm.c:323-342 | TX_IDLE is left for shutdown iff transmission is not enabled, TX_LLDP_INITIALIZE iff it is |
| TxRuns.DisabledPortRestarts | tx_sm.c:316-321 | a port found disabled starts anew from any state |
| TxRuns.ChangeIsAnnounced | tx_sm.c:335-338 | a local change reported in TX_IDLE is announced in exactly the run in which txDelayWhile is down to 0 |
| TxRuns.ShutdownLeavesIff | tx_sm.c:281-286 | after a run in TX_SHUTDOWN_FRAME the machine leaves it in the next iff reinitDelay is below 2 |
| TxRuns.ShutdownAbsorbs | tx_sm.c:339-342 | with reinitDelay at least 2 it never leaves while the port is enabled, and sends on every run |
| KeepAlive.KeepAlive | tx_sm.c:316-351 | sender and receiver over bytes: if the advertised TTL exceeds max(P,3), an entry once cached is there forever with time left |
| KeepAlive.Discovery | rx_sm.c:583-632 | from a cold start the sender is cached by the end of round P+2, and stays |
| KeepAlive.KeepAliveBoundIsNeeded | rx_sm.c:449-465 | with a TTL of at most max(P,3), every run from a cold start in which nothing changes comes to a round whose end finds the sender cached with a TTL of 0 |
| KeepAlive.KeepAliveIff | tx_sm.c:316-351 | over all runs from a cold start: the sender, once cached, stays cached with time left iff its TTL exceeds max(P,3) |
| KeepAlive.HeardFades | rx_sm.c:449-465 | with such a TTL, an entry heard from a sender to which nothing happens counts down to 0 before the next frame is processed |
| KeepAlive.DefaultsOutlast | tx_sm.c:254-257 | any run that ends in TX_LLDP_INITIALIZE leaves interval 5, hold 4, delay 2 and reinitDelay 2, so a TTL of 20 against a period of 6 |
| Allocation.CursorLaw | rx_sm.c:343-345 | allocation n uses last byte (30+n) mod 255; 255 is never used, 0 is used for n = 225 mod 255 |
| Allocation.DigestsAreParsed | rx_sm.c:274-279 | a parsed neighbour always plays the role opposite to the device's |
| Allocation.AllocationsAccounted | rx_sm.c:325-346 | over every run of every port of a master: the cursor law, every live entry holds the address of its own allocation, no two share one, and allocations = insertions = live + removed |
| Allocation.SharedAddressIff | rx_sm.c:329-346 | two live entries share an address iff their allocations are a multiple of 255 apart |
| Allocation.RecentAddressesDistinct | rx_sm.c:329-346 | entries allocated within 255 consecutive allocations have distinct addresses |
| Allocation.AddressStable | rx_sm.c:330-356 | an address is constant over every stretch of runs in which its entry stays cached |
| EndToEnd.AssignmentEndToEnd | rx_sm.c:329-346 | over bytes: the set-IP frame built from the assignment goes to the slave's own MAC, and the slave configures exactly the cached address (that this frame is the one sent: `Wire.SlaveIsAnswered`) |
| Wire.InfoOnWire | tx_sm.c:299-303 | a transmit run that ends in TX_INFO_FRAME puts exactly one frame on the wire: broadcast, and telling its parser the port's own MAC and name, TTL, role, address and modules |
| Wire.SilentOnWire | tx_sm.c:406-432 | one that ends in TX_IDLE or TX_LLDP_INITIALIZE puts none |
| Wire.ShutdownOnWire | tx_sm.c:281-286 | one that ends in TX_SHUTDOWN_FRAME puts out as many zeros as the frame before it had bytes |
| Wire.AlwaysSized | tx_sm.c:267-279 | over all events the noted size is that of the last frame sent |
| Wire.RoleAndModesCarried | tlv.c:545-624 | the role and the modes that a frame's parser finds are the sender's own |
| Wire.NewNeighbour | rx_sm.c:302-346 | an unknown neighbour is listed under MAC and name with its TTL, role and module slots, and with the pool's address on a master, its own on a slave |
| Wire.AddressOnWire | rx_sm.c:329-346 | on a master, an event that lists a new neighbour puts out exactly one frame, to that neighbour's MAC, and its parser configures exactly the listed address 169.254.30.x |
| Wire.EveryAddressOnWire | rx_sm.c:329-346 | the same over all events from a cold start |
| Wire.NothingElseOnWire | rx_sm.c:329-346 | an event of the receive thread that lists nobody new sends nothing and leaves the pool as it is |
| Wire.SlaveOnlyListens | rx_sm.c:329-330 | a slave's receive thread never sends |
| Wire.SlaveIsAnswered | rx_sm.c:302-346 | from bytes to bytes: a master that hears an unlisted slave survives iff the set-IP frame fits, and then answers that slave with the address it lists it under |
| EndToEnd.KeysIdentifySenders | msap.c:282-297 | two senders share a cache key iff MAC and interface name are equal, for names below 250 bytes |
| EndToEnd.LongNamesCollide | lldp_port.h:165 | all senders with 250-byte names share one key |
| EndToEnd.BuiltNames | rx_sm.c:274-305 | a device takes a frame of either builder for a neighbour's iff it speaks for the opposite role, and then for its builder |
| EndToEnd.HearingCaches | rx_sm.c:302-322 | a run that processes a built frame adds exactly its sender's key to the cache if the roles are opposite, and none otherwise |
| EndToEnd.TraceCaches | rx_sm.c:302-322 | the same for any run of a trace |
| EndToEnd.FramesIdentifySenders | msap.c:276-313 | over a whole run of either device: after frames of either builder have been processed in runs i and j, the first entry not being deleted in between, both senders are listed, under the same entry iff MAC and interface name are equal |
| Port.LldpPort.constructor | main.c:457-490 | the initial port |
| Port.LldpPort.Announce | main.c:505-507 | the first frame, sent before the machines start, if it fits |
| Port.LldpPort.BuildFrame | tx_sm.c:123-143 | header, flattened TLVs, End TLV, zero padding, and the size, iff all that fits the buffer |
| Port.LldpPort.ConstrInfoLldpdu | tx_sm.c:35-144 | a clean buffer becomes the information frame followed by zeros, iff the frame fits |
| Port.LldpPort.ConfigIpForSlave | tx_sm.c:147-226 | a clean buffer becomes the set-IP frame followed by zeros, iff the frame fits |
| Port.LldpPort.SendFrame | tx_sm.c:267-279 | exactly the frame goes out, and the buffer is all zero again |
| Port.LldpPort.DoTxShutdownFrame | tx_sm.c:229-286 | what goes out is zero bytes; the timer is reloaded |
| Port.LldpPort.ReadSocket | lldp_linux_framer.c:31-34 | what was read overwrites the front of the receive buffer, iff it fits; a failed read leaves a size of -1 |
| Port.LldpPort.TxStatemachineRun | tx_sm.c:406-432 | one transmit run in place: new state, frames sent, clean buffer, and exactly when it overruns the buffer |
| Port.LldpPort.AssignAddress | rx_sm.c:330-345 | the entry, the pool and the set-IP frame of one assignment |
| Port.LldpPort.ProcessFrame | rx_sm.c:50-382 | one frame processed in place, and exactly when the agent does not survive it |
| Port.LldpPort.RxStatemachineRun | rx_sm.c:634-665 | one receive run in place: new state, cache, pool, buffers and frames sent, and exactly when the agent survives it, the dump of the buffer included |
| Threads.FrameKeepsReadingIff | main.c:208-213 | a whole frame keeps the receive thread reading its port iff it is of another type |
| Threads.FailedReadFatalIff | lldp_linux_framer.c:31-34 | after a failed read the next second is fatal iff the buffer shows the LLDP type |
| Threads.ForeignStallsAll | main.c:194-248 | while a port shows another type no receive machine of any port runs: no entry ages, whatever else happens |
| Threads.ThreadsIndependent | main.c:180-271 | however the two threads interleave, the receive side, the transmit machines and survival are those of either thread alone |
| Threads.OnlyOwnFrames | tx_sm.c:267-279 | over all events, every frame sent is one the port's builders make, with an address of the pool, or all zero |
| Steps.SecondRuns | main.c:237-238 | a second is one step of its port's receive machine, with nothing arriving, unless a port keeps the thread reading |
| Steps.KeptReading | main.c:194-213 | while one does, seconds and frames at other ports change nothing |
| Steps.FrameRuns | main.c:208-231 | an LLDP frame is one step of its port's machine, arriving with exactly its bytes |
| Steps.ForeignHeld | main.c:208-213 | a frame of another type runs nothing, stays in the buffer and keeps the thread reading |
| Steps.TransmitRuns | main.c:255-272 | a transmit event is one step of its port's transmit machine and nothing else on the receive side |
| Steps.SecondClears | rx_sm.c:515-523 | a second that processes a frame clears exactly the bytes received, any other leaves the buffer alone |
| Steps.FrameClears | rx_sm.c:515-523 | so does the arrival of a frame that is processed at once |
| Steps.SecondSurvivedIff | rx_sm.c:634-665 | exactly when a second is survived: received size, parser verdict, and whether the answer can be sent |
| Steps.FrameSurvivedIff | main.c:208-231 | exactly when an LLDP frame is survived: its size against the buffer, and the same |
| Steps.ForeignSurvivedIff | lldp_linux_framer.c:31-34 | a frame of another type is survived iff it fits the buffer |
| Steps.TransmitSurvivedIff | tx_sm.c:35-144 | a transmit run is survived iff the information frame it sends, if any, fits the buffer |
| Steps.AgesOut | main.c:237-238 | with nothing pending or read on its port, an entry with TTL t counts down with every second, and is gone after t+3 |
| ThreadRuns.EventsAreTrace | main.c:180-249 | from a cold start the runs of each port are a trace of the receive machine whose contents are what the bytes in its buffer parse to |
| ThreadRuns.EventsKeepGood | main.c:180-249 | so each port's keys stay distinct and its ageing flag exact |
| ThreadRuns.EventsAreTxTrace | main.c:255-272 | the transmit runs of each port are a trace of the transmit machine |
| ThreadRuns.EventsAreAccounted | rx_sm.c:325-346 | the runs of all ports are a run of the device, so on a master every address handed out is accounted for |
| Delivery.ProcessedIsHeard | main.c:208-231 | whatever a run processes starts with the last frame heard on that port, whole iff that was also the last read, and as if empty iff a read of no bytes came after it |
| Delivery.HeardIsProcessed | rx_sm.c:607-626 | a frame heard while its machine is busy is processed, whole, within 2n+3 of its runs if no other is read on that port |
| Delivery.BuiltFrameIsCached | rx_sm.c:302-322 | so a frame of either builder gets through the parser and has its sender cached within 2n+3 runs, if the roles are opposite |
| Agent.RunEvent | main.c:203-238 | one event on the heap: exactly when the agent survives it, and the state of all ports, pool and buffers after it |
| Agent.RunEvents | main.c:180-271 | any events of both threads, on ports that share a pool: exactly which the agent survives, and the state they lead to |
| Agent.AddPorts | main.c:404-510 | initialisation succeeds iff every first frame fits, and leaves the device in its start state |
| Agent.StartIsCold | main.c:457-490 | in the start state nothing is cached and the pool is at its first address |
| Agent.RunAgent | main.c:180-510 | from initialisation on: the agent survives exactly the events that the specification survives from that start state |
| Start.StartPort | main.c:457-507 | every port starts with its interface's identity, buffers of mtu-4 and mtu-2 bytes, machines and timers as initialised, and one frame sent that tells its own information with a TTL of 20 |
| Start.RecommendedMeans | tx_sm.c:254-257 | its settings mean a TTL of 20, frames 3 to 6 runs apart, and that neighbours keep it |
| Start.StartSpacing | tx_sm.c:323-345 | from the start, over all events with transmission enabled, consecutive information frames of each port are 3 to 6 of its transmit runs apart |
| Start.InfoKeepsComing | tx_sm.c:335-345 | among any P transmit runs of a port one puts its own information on the wire |

## Left out

- Sockets, ioctl, interface discovery and MTU probing: MAC, IP, interface name and buffer size are fields, and a sent
  frame is appended to a ghost trace.
- `main.c` beyond initialisation and the two threads' loops: argument parsing, signals, cleanup. What `select` reports
  is the order of the events.
- Data races between the receive and the transmit thread: each run, and each read, is atomic.
- Gratuitous ARP, neighbour files, host name lookup and `ifconfig`: external effects. The addresses handed to
  `ifconfig` are kept, in the parser's `configured`.
- Logging, name helpers and stubs that do nothing; of the hex dump in every receive run, all but that a negative size
  makes it leave its buffer.
- Allocation failure and `free`: a deleted node is unreachable, not released.
- `tlvcpy`: a TLV is a value here, so a deep copy is the identity.
- The local wifi interfaces are a sequence, not a linked list, and a built TLV is a value once its buffer is filled.
- The statistics counters, `rx.badFrame` and `tooManyNeighbors`: only ever cleared.
- Frame buffers of 64 KiB and more, where the 16-bit TLV offset could wrap.
- Interval and hold whose product exceeds 31 bits: signed overflow is taken to keep the low 16 bits.
- The keep-alive link has one sender; a receiver that also hears others is covered by bounded ageing and latency only.
- The receive buffer of the keep-alive link is not cleared after processing: it is not read again before the next
  frame overwrites it.
- What happens after a buffer has been overrun: the methods return false and promise nothing about the state.
- TlvBuild.FlattenTlv: requires the type to fit its 8-bit field and the length plus two its 16-bit field, which the
  source's structs enforce except for a size that wraps at 64 KiB.

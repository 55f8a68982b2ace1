# Drawbridge and a Boomerang transmit ring: a verified model

Drawbridge is a filtering Ethernet bridge. It learns which board each address is
on, decides per packet whether the policy for a campus host lets it through, and
is managed over an encrypted datagram channel. This project models its hard parts
in Dafny, together with the transmit ring of the 3c575 packet driver, and proves
what they promise.

Most parts come as a pair of files. One gives the behaviour on values and proves
the properties; the other gives the code, with its arrays, fields and loops, and
proves it equal to the behaviour on values.

| files | what they model |
|---|---|
| `LinearProbing`, `FiniteSets`, `Remainders` | open addressing in general, and the counting and division facts used throughout |
| `Bridge`, `BridgeInterrupts`, `BridgeCalls`, `BridgeFaults` | the learning bridge; the same under nested interrupts, step by step; what an undisturbed call comes to; what goes wrong, and when |
| `ShuffleDelete`, `NetworkTable` | the release shuffle in general; the table of networks |
| `NetworkStore`, `NetworkEdits`, `NetworkRuns`, `NetworkModel`, `NetworkLoads`, `NetworkTables`, `CacheReplacement` | host classes: cache, staged loads, releases; whole runs with and without the cache; the two maps they amount to; a whole load read back; the code; which blocks the cache keeps |
| `AccessLists`, `Filter`, `FilterPolicy` | range lists; the packet checks with the code; the policy they carry out on every packet |
| `Checksum`, `Potp`, `PotpStream`, `PotpCode`, `Messages`, `Session`, `SessionPasswords`, `SessionCode` | the management channel: checksum, cipher and key exchange, what the cipher's stream is, messages, session, passwords |
| `PacketFlow`, `PacketFates`, `PacketQueues` | buffer pool and queues under any interleaving; where each packet's buffer goes; the linked queues, the free stack and the forwarding loop |
| `Scheduler`, `SchedulerRuns`, `SchedulerTimes`, `SchedulerCode` | timed events on a clock that starts over at midnight; one event in absolute time |
| `Arp`, `ArpOwnership`, `ArpTimers`, `ArpAnswers`, `ArpCode` | the ARP table and the packets that wait in it; where packets go once an address is resolved |
| `TxRing`, `TxRingCode` | sixteen linked transmit descriptors shared by a driver, a card and an interrupt handler |

The target is a 16-bit little-endian machine: wrap-around, 16-bit subtraction and
32-bit counters are written out where they matter.

## Where the code does less than its design

Each of these is a lemma, with the exact condition under which the code does what is
meant and, for most, a concrete run or table on which it does not.

- Releasing a network can hide another one: the shuffle moves only entries of the
  same home slot. Exactly the tables that are `CleanToRelease` keep every other
  network (`NetworkTable.ReleaseIsClean`, `NetworkTable.ReleaseCanHideANetwork`).
- The scan of a release ends exactly when a slot is empty
  (`NetworkEdits.ReleaseIsReleased`); a release of network 0, which matches the first
  empty slot, has its own condition (`NetworkEdits.ZeroReleaseStops`).
- An END message that installs a new network into a full table destroys the network
  in its home slot and sends both an error and an acknowledgement. Exactly these
  messages do not follow the maps (`NetworkModel.LoadRepresents`,
  `NetworkModel.FullLoadDestroys`, `NetworkModel.FullStoreIsMet`).
- A loaded network number with host bits set answers for no host
  (`NetworkModel.OnlyMaskedNetworksAnswer`).
- An empty range list lets port 0 through (`FilterPolicy.EmptyListGrantsPortZero`). The UDP
  defaults that a class release installs grant only ports up to 68, because their
  first range begins at 0, which ends a list; the start-up defaults also grant 70 to
  110 and 112 up (`AccessLists.ReleasedUdp`, `AccessLists.BootUdp`).
- An IP packet whose header claims to be longer than the packet is not found too short:
  the 16-bit difference wraps around (`FilterPolicy.TooShortIsTruncated`).
- Looking up 0.0.0.0 makes a cache set forget its block on the next use of another
  one exactly when the set has held only one (`CacheReplacement.ZeroHostEvicts`,
  `CacheReplacement.RecentIffRemembered`, `CacheReplacement.OneNetworkEvicts`).
- The zero Ethernet address matches an empty bridge slot
  (`Bridge.ZeroAddressIsNotUnknown`); under nested interrupts it can even put an
  address on a board it was never heard on (`BridgeFaults.ZeroSourceIsUnsafe`). The
  step that does so is an update of a slot that holds another address, never heard
  there (`BridgeFaults.UntrueIffMisplaced`).
- Under nested interrupts a learned address can be lost, by an insertion into the only
  slot that holds it and by no other step (`BridgeFaults.LostIffEvicted`,
  `BridgeFaults.AnAddressCanBeLost`).
- For a buffer of odd length whose last byte is not zero the checksum is not the
  byte-swapped checksum of section 2 of RFC 1071
  (`Checksum.IsSwappedInternetChecksum`).
- Between midnight's first poll and the next sweep, an added event, or a deletion that
  leaves an overdue event waiting, stops the scheduler for good. Exactly these steps do
  (`SchedulerRuns.StepSound`, `SchedulerRuns.AddInAlarmKills`,
  `SchedulerRuns.DeleteInAlarmKills`, `SchedulerRuns.DeadStaysDead`,
  `SchedulerRuns.MidnightCanKill`). An event added after
  a midnight that no poll has seen yet is held for a time one day too early, and one
  with a delay of more than 23598721 seconds for an earlier time too
  (`SchedulerTimes.AddHolds`).
- A NEWKEY whose body has no zero byte and is shorter than the password buffer leaves the
  end of the old password there, unless the old buffer has a zero byte at that place
  (`SessionPasswords.PasswordIsReplaced`, `SessionPasswords.TailIsLeft`).
- An ARP reply, or a request that finds a slot, from a sender the bridge does not know
  ends the program, and nothing else does while the bridge knows the same addresses
  (`ArpTimers.OnlyUnknownSendersStop`).
- A sender of ARP requests is recorded under its address in packet byte order, so
  unless the address reads the same both ways each request takes another slot
  (`ArpTimers.RequestIsFoundIfPalindrome`, `ArpTimers.SixteenRequestsBlock`); and such
  a request can take an earlier slot for a neighbour that is resolved already, by this
  and by nothing else while its own entry lasts (`ArpAnswers.StaysResolved`).
- An ARP slot's retry count is never reset, so a slot that has used its retries, as
  one silent address makes it do, gives every later address only two ticks
  (`ArpTimers.SilentAddressSpendsSlot`, `ArpTimers.SpentSlotStaysSpent`).
- `tx_full` is set on a ring with room exactly after the handler overtook the mark, or
  after closing while it was set, with no interrupt or closing since
  (`TxRing.FullIsExact`). From power-up both can end on an empty ring that refuses
  every packet (`TxRing.OvertakenFromPowerUp`, `TxRing.ClosedFullFromPowerUp`).

One more departure is built into the model rather than shown by a lemma: the transmit
descriptor is given the address of the caller's buffer and not of the copy
(pm_drvr/3c575_cb.c line 1465), so what `TxRing` shows to be fetched in order are the
callers' addresses.

## Model

| member | source | states |
|---|---|---|
| LinearProbing.FindExact | NDIS/BRIDGE.C:58-80 | in a well-formed table a nonempty key is found exactly at the slot that stores it |
| LinearProbing.FoundIffReachable | NDIS/BRIDGE.C:58-80 | an entry is found by its key exactly when every slot probed before it is taken by another key |
| LinearProbing.InsertKeepsWellFormed | NDIS/BRIDGE.C:192-239 | writing a key to the slot its search chose keeps every entry reachable |
| LinearProbing.InsertKeepsOthers | NDIS/BRIDGE.C:192-239 | and changes no other key's lookup |
| Bridge.LookUpIsMap | NDIS/BRIDGE.C:43-88 | in a good table a lookup answers from the address-to-board map; the zero address, which matches empty slots, is the stated exception |
| Bridge.FullMeansFull | NDIS/BRIDGE.C:192-213 | fewer than 8192 known addresses exactly when a slot is free |
| Bridge.LearnRefines | NDIS/BRIDGE.C:192-239 | one frame changes the table exactly as it changes the map: learn or re-home a unicast nonzero source unless it is unknown and the table is full |
| Bridge.RunRefines | NDIS/BRIDGE.C:91-241 | over any run of frames the table stays a picture of the map, and each frame is held back or passed as the map says |
| Bridge.BridgeIsMap | NDIS/BRIDGE.C:43-270 | from initialisation, every lookup after any run of frames answers as the map of learned addresses |
| Bridge.ZeroAddressIsNotUnknown | NDIS/BRIDGE.C:58-88 | on a fresh table the zero address is reported on board 0 and frames to it from board 0 are held back |
| Bridge.BridgeTable.constructor | NDIS/BRIDGE.C:243-270 | all slots empty |
| Bridge.BridgeTable.Probe | NDIS/BRIDGE.C:58-75 | the probing loop ends at the first slot with the address or no entry, or reports a full circle |
| Bridge.BridgeTable.BridgeLookUp | NDIS/BRIDGE.C:43-88 | the code returns what the lookup on values does |
| Bridge.BridgeTable.Bridge | NDIS/BRIDGE.C:91-241 | the code passes or holds the frame and leaves the table exactly as the model does |
| BridgeInterrupts.NextIsSafe | NDIS/BRIDGE.C:91-241 | every single step of every nested call keeps all entries reachable and truthful, given nonzero addresses |
| BridgeInterrupts.RunIsSafe | NDIS/BRIDGE.C:91-241 | so does any interleaving of steps |
| BridgeInterrupts.SafeLookUp | NDIS/BRIDGE.C:43-88 | in a safe state a lookup finds every valid slot's address and names only a board the address was a source on |
| BridgeInterrupts.InterruptsAreSafe | NDIS/BRIDGE.C:43-241 | from initialisation, under any nesting: valid slots are found by probing, and neither a lookup nor a held-back frame relies on a board on which the address was not a source |
| BridgeCalls.UndisturbedCall | NDIS/BRIDGE.C:91-241 | whatever calls it interrupts, a call that is not interrupted itself ends after some steps with exactly the bridge's table, its frame held back exactly when the bridge does not pass it, and the outer calls as they were |
| BridgeCalls.UndisturbedRun | NDIS/BRIDGE.C:91-241 | so do any number of such calls in turn: the bridge's final table, and the frames it holds back |
| BridgeCalls.UndisturbedLookUp | NDIS/BRIDGE.C:43-88 | a lookup that is not interrupted tells the board the bridge knows, or that it knows none |
| BridgeFaults.LostIffEvicted | NDIS/BRIDGE.C:192-239 | a step makes a known address unknown exactly when it inserts another address into the only slot that holds it |
| BridgeFaults.KnownWhileNotEvicted | NDIS/BRIDGE.C:91-241 | over any interleaving an address stays known at every point exactly when no step of the run is of that kind |
| BridgeFaults.NothingIsLost | NDIS/BRIDGE.C:192-239 | without an insertion into a slot that has been taken meanwhile, nothing known is ever lost |
| BridgeFaults.UpdateMakesKnown | NDIS/BRIDGE.C:192-239 | a call that reaches its last write leaves its source known, in a slot with the frame's own board |
| BridgeFaults.AnAddressCanBeLost | NDIS/BRIDGE.C:192-239 | a run from power-up in which a heard address is overwritten and unknown |
| BridgeFaults.UntrueIffMisplaced | NDIS/BRIDGE.C:192-239 | whatever frames arrive, the table stays true to what was heard on every step but an update of a slot that holds another address, never heard on that board |
| BridgeFaults.TruthfulWhileNotMisplaced | NDIS/BRIDGE.C:91-241 | over any run, zero addresses included, the table is true throughout exactly when no step is of that kind |
| BridgeFaults.TruthfulLookUp | NDIS/BRIDGE.C:43-88 | in a true table a lookup names a board the address was heard on |
| BridgeFaults.TruthfulFromPowerUp | NDIS/BRIDGE.C:43-241 | so over any run from power-up, and then every lookup at its end names a board the address was heard on |
| BridgeFaults.ZeroSourceIsUnsafe | NDIS/BRIDGE.C:192-239 | a run from power-up with a zero source that places an address on a board it was never a source on |
| ShuffleDelete.DeletePermutes | NDIS/MANAGE.C:1113-1129 | in a table without gaps on probe paths the shuffle keeps all other entries as a permutation, moves only entries of the same home, and empties exactly the furthest slot of that home |
| ShuffleDelete.PathAfterDelete | NDIS/MANAGE.C:1113-1129 | afterwards a probe path is whole exactly when the entry is of that home or its path misses the emptied slot |
| ShuffleDelete.StopsIffEmptySlot | NDIS/MANAGE.C:1117-1126 | the loop ends, whatever the table, exactly when there is an empty slot to meet |
| ShuffleDelete.StopsFromEmpty | NDIS/MANAGE.C:1117-1126 | started from an empty slot it ends exactly when another slot is empty or no entry of the home slot comes first |
| ShuffleDelete.ClearedPermutes | NDIS/MANAGE.C:1113-1134 | in any table, well formed or not, the loop and the clearing after it keep the other entries as a permutation with distinct keys |
| ShuffleDelete.ClearedIsDeleted | NDIS/MANAGE.C:1113-1134 | from an occupied slot what the loop leaves is the deletion |
| NetworkTable.InsertKeepsTable | NDIS/FILTER.C:1237-1280 | installing a network in the slot found for it keeps every network reachable |
| NetworkTable.ReleaseKeeps | NDIS/MANAGE.C:1098-1134 | what a release does to each entry: permutation, emptied slot, and who is still found |
| NetworkTable.ReleaseForgets | NDIS/MANAGE.C:1098-1134 | the released network is unknown afterwards, and no unknown network becomes known |
| NetworkTable.ReleaseLookups | NDIS/MANAGE.C:1098-1134 | every other network keeps its entry and is found exactly when it has the released home or its path misses the emptied slot |
| NetworkTable.ReleaseIsClean | NDIS/MANAGE.C:1113-1134 | the table stays good exactly when, before the release, no entry of another home was probed for across the furthest slot of that home |
| NetworkTable.ReleaseCanHideANetwork | NDIS/MANAGE.C:1113-1134 | releasing 192.0.1.0 makes 192.8.1.0 unreachable |
| NetworkStore.LookupIsTransparent | NDIS/FILTER.C:69-184 | with correct cached blocks the cached lookup equals the uncached probe and read, and leaves tables, blocks and all answers alone and the cache correct |
| NetworkStore.FetchReads | NDIS/FILTER.C:106-184 | a fetch answers from the tables and leaves a correct block for both its hosts |
| NetworkStore.FlushedIsOk | NDIS/FILTER.C:186-191 | zeroed entries are correct blocks |
| NetworkEdits.BeginOwned | NDIS/MANAGE.C:525-575 | a BEGIN keeps every XMS block owned by exactly one table entry |
| NetworkEdits.FinishOwned | NDIS/MANAGE.C:594-650 | so does an END with room in the table, which frees the replaced block once |
| NetworkEdits.ReleaseOwned | NDIS/MANAGE.C:1098-1137 | so does every release whose scan ends, of network 0 and in tables with unreachable networks too |
| NetworkEdits.ReleaseIsReleased | NDIS/MANAGE.C:1098-1134 | the release of a loaded network ends exactly when a slot is empty, and then deletes its entry |
| NetworkEdits.ZeroReleaseStops | NDIS/MANAGE.C:1098-1126 | a release of network 0 ends exactly when another slot is empty or no entry of home 0 lies before the first empty one |
| NetworkRuns.LoadKeeps | NDIS/MANAGE.C:495-652 | a load message that does not install into a full table keeps ownership, and either leaves the loaded networks and the cache alone or empties the cache |
| NetworkRuns.RunIsTransparent | NDIS/FILTER.C:69-191 | over any run of lookups, loads and releases, clean tables or not, every answer and reply with the cache is that without it |
| NetworkRuns.CacheIsInvisible | NDIS/FILTER.C:69-191 | so from start-up |
| NetworkModel.LookupIsMap | NDIS/FILTER.C:106-184 | the class of a host is that in its loaded network's block, or 0 |
| NetworkModel.LoadRepresents | NDIS/MANAGE.C:495-652 | a load message, with every error reply, changes the tables as it changes the maps of loaded and staged blocks exactly when it does not install a new network into a full table |
| NetworkModel.RunIsMap | NDIS/MANAGE.C:495-652 | over any run of lookups, loads and releases of clean tables every answer and reply is that of the two maps, and the final tables, blocks and cache stand for the final maps |
| NetworkModel.InitialRepresents | NDIS/FILTER.C:981-1057 | the run starts with nothing loaded and nothing staged |
| NetworkModel.LoadIsHidden | NDIS/MANAGE.C:522-594 | until an accepted END, and after every error but the refusal by a full table, no lookup answer changes |
| NetworkModel.EndInstalls | NDIS/MANAGE.C:594-650 | an accepted END makes the network answer from its assembled block and changes no other answer |
| NetworkLoads.HostsOf | NDIS/MANAGE.C:600-650 | a network's hosts are those from its number on, as many as its block has bytes, and each has the byte at its distance |
| NetworkLoads.LoadRoundTrip | NDIS/MANAGE.C:495-652 | after any run that begins, sends pieces of and ends the load of a network, in any order and with anything else in between, each of its hosts has the class sent last for it |
| NetworkLoads.CoveredLoad | NDIS/MANAGE.C:495-652 | when the pieces cover the network, every host of it is answered from what was sent, through the cache too |
| NetworkModel.OnlyMaskedNetworksAnswer | NDIS/MANAGE.C:497-498 | a loaded network answers for some host exactly when its host bits are zero |
| NetworkModel.FullLoadReplies | NDIS/MANAGE.C:607-652 | a message that installs into a full table is answered with an error and an acknowledgement and overwrites the home slot |
| NetworkModel.FullLoadDestroys | NDIS/MANAGE.C:607-652 | it frees and forgets the network that was there |
| NetworkModel.FullStoreIsMet | NDIS/MANAGE.C:607-652 | a store with 32 networks loaded and one staged on which this happens |
| NetworkTables.Tables.Probe | NDIS/FILTER.C:139-159 | the probing loop finds the slot the model finds |
| NetworkTables.Tables.NetworkCacheLookup | NDIS/FILTER.C:69-104 | the code equals the lookup on values, cache, counters and timestamps included |
| NetworkTables.Tables.NetworkCacheFetch | NDIS/FILTER.C:106-184 | so does the fetch |
| NetworkTables.Tables.NetworkCacheFlush | NDIS/FILTER.C:186-191 | the whole cache becomes zero |
| NetworkTables.Tables.HandleLoadNetwork | NDIS/MANAGE.C:495-650 | the code equals the load on values, its program exit included |
| NetworkTables.Tables.Start | NDIS/MANAGE.C:522-574 | the BEGIN part equals the model: slot, old block freed, new one allocated or the entry cleared |
| NetworkTables.Tables.Copy | NDIS/MANAGE.C:576-592 | the copy of one piece, and what follows it, equals the model |
| NetworkTables.Tables.FindIn | NDIS/MANAGE.C:516-520 | the scan finds the first entry of a network |
| NetworkTables.Tables.Install | NDIS/MANAGE.C:600-647 | the END part equals the model, the full-table path included |
| NetworkTables.Tables.HandleReleaseNetwork | NDIS/MANAGE.C:1090-1152 | the code equals the release on values, network 0 included |
| NetworkTables.Tables.ShuffleUp | NDIS/MANAGE.C:1113-1134 | the in-place loop leaves what the rounds on values leave when they stop |
| CacheReplacement.UseKeepsSets | NDIS/FILTER.C:69-184 | one timed lookup, of any host, keeps each cache set at its two most recent remembered blocks and counts a miss exactly when the block was not one of them |
| CacheReplacement.RunKeepsRecent | NDIS/FILTER.C:69-184 | over any timed run since a flush, each set holds exactly the two most recently used distinct blocks it remembers and the miss counter has counted exactly the other uses |
| CacheReplacement.AccessesCounted | NDIS/FILTER.C:69-90 | the access counter counts every lookup |
| CacheReplacement.HistoryRemembers | NDIS/FILTER.C:77-103 | what a set remembers is the end of what was used |
| CacheReplacement.NothingForgotten | NDIS/FILTER.C:77-103 | and all of it when 0.0.0.0 and 0.0.0.1 were not looked up |
| CacheReplacement.RecentIffRemembered | NDIS/FILTER.C:77-103 | a set holds the two most recently used blocks exactly when it has forgotten nothing or two blocks have been used since |
| CacheReplacement.ZeroHostEvicts | NDIS/FILTER.C:77-103 | after a lookup of 0.0.0.0 or 0.0.0.1 and the use of an uncached block, the block last used in their set is still cached exactly when it was not the only one |
| CacheReplacement.OnlyBlockIsEvicted | NDIS/FILTER.C:77-103 | on a flushed cache this befalls any two blocks of the set of 0.0.0.0 |
| CacheReplacement.OneNetworkEvicts | NDIS/FILTER.C:77-103 | a store with one network, on which lookups of 128.0.0.0, 0.0.0.0 and 128.0.4.0 lose the block of the first |
| AccessLists.ScanIsMembership | NDIS/FILTER.C:223-247 | on a sorted terminated list the early-ending scan is membership in the ranges, or port 0 against the terminator |
| AccessLists.ZeroPort | NDIS/FILTER.C:223-247 | for real ports the scan is membership |
| AccessLists.BootUdp | NDIS/FILTER.C:1050-1056 | the ports the start-up UDP list grants |
| AccessLists.ReleasedUdp | NDIS/MANAGE.C:1209-1215 | the ports the UDP list of a class release grants |
| FilterPolicy.TcpInIsPolicy | NDIS/FILTER.C:193-282 | incoming TCP, for every port: multicast unless denied; otherwise the destination port granted by the class's ranges, or above 900 with the source port granted by its source ranges |
| FilterPolicy.UdpInIsPolicy | NDIS/FILTER.C:407-462 | incoming UDP: multicast unless denied; otherwise the destination port granted by the class's ranges |
| FilterPolicy.TcpOutIsPolicy | NDIS/FILTER.C:284-405 | outgoing TCP: multicast unless denied; otherwise the port granted by the class's ranges, or by those of the first allow entry that covers the destination |
| FilterPolicy.EmptyListGrantsPortZero | NDIS/FILTER.C:230-241 | an empty list grants port 0 and nothing else |
| FilterPolicy.RejectedIsCovered | NDIS/FILTER.C:541-563 | the reject scan: some entry covers the source with no unused entry before it |
| FilterPolicy.TooShortIsTruncated | NDIS/FILTER.C:576-586 | the length test, on 16-bit unsigned words, finds exactly the packets that are shorter than they say or end too soon after their header |
| FilterPolicy.IncomingIsPolicy | NDIS/FILTER.C:487-676 | every packet from the Internet, of any protocol, is passed exactly when there is no reason to drop it |
| FilterPolicy.OutgoingIsPolicy | NDIS/FILTER.C:678-842 | the same for every packet from the campus |
| FilterPolicy.ConnectionsCarryOn | NDIS/FILTER.C:564-605 | a TCP packet that opens no connection comes in, for every class, exactly when no reject entry covers its source and it is whole, and goes out exactly when it is whole |
| FilterPolicy.PacketsFollowPolicy | NDIS/FILTER.C:186-842 | through the cached lookup, probe and scans, every IP packet is decided by the class that the loaded networks give its campus host |
| FilterPolicy.RunsFollowPolicy | NDIS/FILTER.C:487-842 | after any run of lookups, loads and releases every packet, IP or not, is decided as the policy says of the class the two maps give after that run |
| Filter.Checks.CheckIncomingTcp | NDIS/FILTER.C:193-282 | the code's answer is the decision on the class its cached lookup returns |
| Filter.Checks.CheckOutgoingTcp | NDIS/FILTER.C:284-405 | the same, with the allow table |
| Filter.Checks.CheckAllow | NDIS/FILTER.C:340-404 | the allow scan stops at the first covering or unused entry and decides there |
| Filter.Checks.Search | NDIS/FILTER.C:229-241 | the scan of one range list stops and decides as the model's |
| Filter.Checks.CheckReject | NDIS/FILTER.C:541-563 | the scan of the reject table decides as the model's |
| Filter.Checks.CheckIncomingUdp | NDIS/FILTER.C:407-462 | the same for UDP |
| Filter.Checks.CheckIncomingPacket | NDIS/FILTER.C:487-676 | the code passes exactly the packets the model passes, and counts the others |
| Filter.Checks.CheckOutgoingPacket | NDIS/FILTER.C:678-842 | the same outwards |
| Checksum.NoOverflow | NDIS/MANAGE.C:92-104 | the 32-bit sum cannot overflow for any 16-bit length, chained or not |
| Checksum.TwoFolds | NDIS/MANAGE.C:106-107 | two folds bring any 32-bit sum to 16 bits, and to its residue modulo 65535 |
| Checksum.ChainIsConcatenation | NDIS/MANAGE.C:95-98 | chaining over an even-length prefix is one pass over the concatenation |
| Checksum.InsertedVerifies | NDIS/IP.C:421-422 | storing the checksum in its zeroed field at an even offset makes the whole sum to 0 |
| Checksum.VerifiesIff | NDIS/IP.C:805 | a buffer is accepted exactly when its word sum is a positive multiple of 65535 |
| Checksum.IsSwappedInternetChecksum | NDIS/MANAGE.C:79-110 | the result is the byte-swapped checksum of section 2 of RFC 1071 exactly when the length is even or the last byte is 0 |
| Checksum.ComputeChkSum | NDIS/MANAGE.C:86-110 | the loop computes that checksum without overflow |
| Potp.StepInverts | NDIS/POTP.C:233-254 | every generator step can be undone, on all three registers |
| Potp.StepsInjective | NDIS/POTP.C:233-254 | different states stay different for any number of steps |
| Potp.StepsOnto | NDIS/POTP.C:233-254 | every state is reached from some state |
| Potp.ZeroRegisters | NDIS/POTP.C:233-254 | in any run a register is zero exactly when it was zero at the start |
| PotpStream.Recurrence | NDIS/POTP.C:38-41 | every bit a register shows is the sum modulo 2 of the bits that its mask selects among the 32 before it |
| PotpStream.StopAndGo | NDIS/POTP.C:229-240 | the stream's bits are sums of one bit of register 2 and one of register 3, run by themselves, as far as register 1's ones and zeros have moved each |
| PotpStream.StandingBitCounts | NDIS/POTP.C:233-240 | flipping the low bit of the register that stands still flips the next bit |
| PotpStream.ThirdIsHeard | NDIS/POTP.C:233-254 | with register 2 zero, steps that move register 3 at least 32 times give only zeros exactly when it is zero too |
| PotpStream.SecondIsHeard | NDIS/POTP.C:233-254 | and the same with 2 and 3 exchanged |
| PotpStream.CipherIsStopAndGo | NDIS/POTP.C:142-155 | a bit of a message, low bits first, is flipped exactly when the generator's bit at its place is one |
| PotpStream.DrawIsStream | NDIS/POTP.C:204-213 | words drawn from the generator are its stream's bytes, the first lowest |
| PotpStream.HalfKeyIsStream | NDIS/POTP.C:54-83 | a half key is the twelve bytes after the first four of the clock-seeded stream, which give the spin count it is offered with |
| PotpStream.SpinCountIs | NDIS/POTP.C:57-58 | the spin count is the low word drawn, without its last three bits |
| PotpStream.MaskIsStream | NDIS/POTP.C:71-76 | what hides it is the twelve bytes after the spin count of the password's stream |
| PotpStream.OfferIs | NDIS/POTP.C:74-83 | a SYNC packet carries the spin count and the half key under its mask, in network order |
| PotpStream.BytesOfWord | NDIS/POTP.C:169-172 | a word's four bytes, high byte first, and what swapping them does |
| PotpStream.PlaceFour | NDIS/POTP.C:209-212 | four bytes set side by side by the shifts make a word with the last one highest |
| PotpStream.SwappedWord | NDIS/POTP.C:78-94 | a 16-bit word swapped has its two bytes exchanged |
| Potp.CipherUndoes | NDIS/POTP.C:142-155 | decrypting under the same key state undoes encrypting |
| Potp.CipherAppends | NDIS/POTP.C:142-155 | encrypting two parts in turn is encrypting them joined |
| Potp.PasswordKeys | NDIS/POTP.C:158-185 | two passwords give the same key exactly when they agree in each of their first 12 bytes, a shorter one filled up with 0xAA |
| Potp.PasswordStart | NDIS/POTP.C:165-180 | the password's generator starts from its bytes, high byte first in each word, and is stirred for 1000 steps |
| Potp.ServerRecovers | NDIS/POTP.C:88-124 | the server recovers any half key offered under the same password, for every spin count |
| Potp.KeysAgree | NDIS/POTP.C:43-137 | both ends of an exchange compute the same session key |
| PotpCode.Registers.RandBit | NDIS/POTP.C:233-254 | the code moves the registers by one step and returns its bit |
| PotpCode.Registers.RandByte | NDIS/POTP.C:219-227 | eight steps, low bit first |
| PotpCode.Registers.Draw | NDIS/POTP.C:57-75 | three words in turn after 96 steps |
| PotpCode.Registers.Spin | NDIS/POTP.C:66-69 | the given number of bytes passed over |
| PotpCode.Registers.RandLong | NDIS/POTP.C:204-227 | four bytes, low byte first, after 32 steps |
| PotpCode.Registers.Encrypt | NDIS/POTP.C:142-155 | the loop enciphers the buffer, also in place, and leaves the rest of it alone |
| PotpCode.InitFromPass | NDIS/POTP.C:158-185 | padding, packing and the 125-byte stir |
| PotpCode.ClientInit | NDIS/POTP.C:43-86 | half key and packet as in the model |
| PotpCode.ServerInit | NDIS/POTP.C:88-124 | the other half as in the model |
| Messages.SealOpens | NDIS/MANAGE.C:175-228 | header and body encrypted in two calls and decrypted in one verify, give the same body and leave equal keys, for every key, random word and body |
| Messages.HeaderSays | NDIS/MANAGE.C:181-187 | a header in the clear is a checksum that makes the message verify, and the random word |
| Messages.StaysInStep | NDIS/MANAGE.C:1391-1430 | two ends with the same key stay in step over any conversation in either direction and every body arrives |
| Messages.SyncRoundTrip | NDIS/STRUCT.H:276-280 | the bytes of a SYNC body give back the packet |
| Session.HandleKeeps | NDIS/MANAGE.C:1330-1493 | one message keeps a valid key tied to a loaded password, never unloads the password, and does nothing once a reboot is requested |
| Session.RunKeeps | NDIS/MANAGE.C:1330-1493 | so does any run of messages |
| Session.OnlyVerifiedMessages | NDIS/MANAGE.C:1369-1492 | with a password loaded, a handler other than SYNC's runs exactly on verified messages of its kind, and is given the decrypted body |
| Session.RefusalReason | NDIS/MANAGE.C:1340-1457 | which error, if any, answers a message that is not handled, and that it goes out in the clear |
| Session.FailedCheck | NDIS/MANAGE.C:1412-1427 | a message that fails the check is not handled and invalidates the key |
| Session.LockedUntilSync | NDIS/MANAGE.C:1369-1442 | without a valid key no message is handled before the next SYNC |
| Session.SyncAgrees | NDIS/MANAGE.C:233-253 | a SYNC leaves the filter with the key the manager computes from its answer, which comes in the clear or sealed under the key that was valid |
| Session.SealedIsHandled | NDIS/MANAGE.C:1391-1492 | a message sealed under the shared key reaches its handler with its body |
| Session.OneExchange | NDIS/MANAGE.C:1391-1492 | a request sealed under equal keys is handled with its body, every answer arrives with its type and body, errors in the clear included, and the keys are equal again |
| Session.StaysInSession | NDIS/MANAGE.C:1391-1492 | so over any conversation of such requests, password changes included |
| Session.SessionAfterSync | NDIS/MANAGE.C:233-253 | and over any that begins with a SYNC, with the key the manager computes from its answer |
| SessionPasswords.PasswordIsReplaced | NDIS/MANAGE.C:276-319 | the buffer spells the new password exactly when the body has a zero byte, or is as long as the buffer, or the old buffer has a zero byte where the body ends |
| SessionPasswords.NewkeyInstalls | NDIS/MANAGE.C:276-319 | after a NEWKEY that was handled and written the password is loaded, and is the body's text exactly then, and one acknowledgement is sent |
| SessionPasswords.OnlyNewkeyInstalls | NDIS/MANAGE.C:1330-1493 | no other message changes the password |
| SessionPasswords.NewPasswordAgrees | NDIS/MANAGE.C:233-319 | a SYNC offered under the new password then agrees on a key |
| SessionPasswords.InsecureHandled | NDIS/MANAGE.C:1340-1492 | while no password is loaded, a handler runs exactly on messages in insecure mode, SYNC excepted |
| SessionPasswords.OnlyRebootSilences | NDIS/MANAGE.C:261-274 | a handled REBOOT, and nothing else, silences the filter after one acknowledgement |
| SessionPasswords.AnswersCarryMode | NDIS/MANAGE.C:175-187 | every message sent carries the mode in which its request was met |
| SessionPasswords.ClearReplies | NDIS/MANAGE.C:194-227 | without a valid key replies go out in the clear, in order, each with its type |
| SessionCode.Manager.DeliverPacket | NDIS/MANAGE.C:175-228 | the code seals or sends in the clear as the model does |
| SessionCode.Manager.OpenMessage | NDIS/MANAGE.C:1391-1430 | decrypt, verify, and on a failed check invalidate the key |
| SessionCode.Manager.DispatchMessage | NDIS/MANAGE.C:1462-1492 | each message type reaches its handler and no other |
| SessionCode.Manager.SyncHandler | NDIS/MANAGE.C:233-253 | answer first, under the old key if one is valid, then install the new key |
| SessionCode.Manager.NewkeyHandler | NDIS/MANAGE.C:276-319 | reply, then replace and load the password only when the file was written |
| SessionCode.Manager.FiltMessage | NDIS/MANAGE.C:1330-1493 | the code equals the session machine and keeps its invariant |
| PacketFlow.NextKeeps | NDIS/QUEUE.C:51-196 | every step of either thread keeps each buffer in one place and every queue first in, first out |
| PacketFlow.BuffersAreConserved | NDIS/QUEUE.C:51-196 | over any interleaving each of the `n` buffers is in exactly one place, freeing never overflows, and a queue's arrivals are in order its departures and its contents |
| PacketFlow.ReceivedIsAccountedFor | NDIS/FILTER.C:855-967 | per direction: arrived equals transmitted, filtered, delivered locally or still queued |
| PacketFlow.AllocKeeps | NDIS/QUEUE.C:141-196 | an allocation takes a buffer exactly when more are free than it must keep back |
| PacketFlow.ReceiveLeavesFive | NDIS/QUEUE.C:170-196 | only allocations shrink the free stack, and one for a received packet leaves at least five |
| PacketFates.ForwardPlaces | NDIS/FILTER.C:890-966 | forwarding one packet puts its buffer on the protocol queue, on the other card's wire or on the free stack as the verdict says, and moves nothing else |
| PacketFates.OnlySendsSend | NDIS/FILTER.C:855-960 | a buffer gets on a card's wire only as the first of its management packets or the first, let through, from the other card, and leaves it only when sent |
| PacketFates.OnlyLetThroughIsSent | NDIS/FILTER.C:855-966 | over any interleaving a packet is put on a card's wire exactly as often as the policy let it through or it was one of our own: a filtered packet never is |
| PacketFates.OnlyLocalIsDelivered | NDIS/FILTER.C:926-939 | and the protocol stack gets exactly the packets found to be for the bridge |
| PacketFates.ArrivalWaits | NDIS/IP.C:224-304 | a packet received waits last on its card's queue, one of our own last on its card's management queue |
| PacketFates.OtherMoves | NDIS/QUEUE.C:123-196 | allocations take the buffer freed last, a released or sent buffer is free again, and nothing else moves |
| PacketQueues.Queue.EnqueuePktBuf | NDIS/QUEUE.C:51-83 | the linked queue gains the buffer at its end, links in both directions intact |
| PacketQueues.Queue.DequeuePktBuf | NDIS/QUEUE.C:86-120 | the head leaves, unlinked, and the rest stays well linked |
| PacketQueues.BufferPool.constructor | NDIS/QUEUE.C:198-239 | the configured buffers and five more, all free |
| PacketQueues.BufferPool.FreePktBuf | NDIS/QUEUE.C:123-139 | pushes the buffer, or reports that all are free already |
| PacketQueues.BufferPool.AllocPktBufMgmt | NDIS/QUEUE.C:141-167 | pops the last buffer freed unless none is left |
| PacketQueues.BufferPool.AllocPktBuf | NDIS/QUEUE.C:170-196 | the same, keeping five back |
| PacketQueues.ForwardAllFollowsJudge | NDIS/FILTER.C:864-967 | the loop takes the waiting packets in order, up to the first test that stops it; the protocol queue, the other card's wire and the free stack gain, in order, exactly the buffers judged local, transmitted and filtered, and nothing else moves |
| PacketQueues.SendWaitingSends | NDIS/FILTER.C:855-862 | the first loop sends the waiting management packets in order, as many as there is room for, and touches nothing else |
| PacketQueues.Cards.CountersBalance | NDIS/FILTER.C:890-966 | per card, the 32-bit counters balance: received is transmitted, filtered and delivered locally |
| PacketQueues.Cards.HandleFirst | NDIS/FILTER.C:890-966 | on the linked queues, the free stack and what is handed to the other card, the first packet is dequeued, counted, judged by its content, and delivered, transmitted or freed |
| PacketQueues.Cards.SendQueued | NDIS/FILTER.C:855-862 | the loop on the linked queue sends those packets and no others |
| PacketQueues.Cards.ForwardQueued | NDIS/FILTER.C:864-967 | the forwarding loop on the linked queue takes packets in order, each as the decision on its content says, and keeps the counters right |
| PacketQueues.Cards.ForwardOne | NDIS/FILTER.C:890-966 | one round of it is the step of the main thread |
| PacketQueues.Cards.CheckCard | NDIS/FILTER.C:844-968 | the two loops in turn, on linked queues, free stack and counters |
| Scheduler.SweepFiresDue | NDIS/MAIN.C:151-163 | whatever the callbacks add, a sweep fires exactly the events due when it began, once each |
| Scheduler.PollCounts | NDIS/MAIN.C:96-178 | a poll loses and invents no event: pending before plus added is pending after plus fired |
| SchedulerRuns.NextEventIsLeast | NDIS/MAIN.C:167-175 | `nextEvent` is the least pending time, and 0 exactly when none is pending |
| SchedulerRuns.RetimeKeepsAbsoluteTime | NDIS/MAIN.C:117-143 | retiming keeps the absolute time of exactly the events due after midnight; the others become due at midnight |
| SchedulerRuns.PollIsTimely | NDIS/MAIN.C:96-178 | a poll fires exactly the pending events whose time has passed, unless the clock reads 1 and an alarm of midnight stands |
| SchedulerRuns.PollSound | NDIS/MAIN.C:96-178 | a poll leaves `nextEvent` right, or the alarm of midnight, which the next sweep clears |
| SchedulerRuns.NothingIsLost | NDIS/MAIN.C:96-229 | over any run, whatever the clock does, each accepted event has fired once, been deleted once or is pending |
| SchedulerRuns.EveryPollIsTimely | NDIS/MAIN.C:96-229 | along every steady run every poll from the second tick on fires exactly what is due |
| SchedulerRuns.AddInAlarmKills | NDIS/MAIN.C:180-212 | an add while the alarm stands makes `nextEvent` 0 exactly when it finds a slot |
| SchedulerRuns.DeleteInAlarmKills | NDIS/MAIN.C:214-229 | a deletion then does so exactly when another overdue event is left |
| SchedulerRuns.StepSound | NDIS/MAIN.C:96-229 | no other poll, add or deletion can spoil `nextEvent`, and these always do |
| SchedulerRuns.SoundWhileSteady | NDIS/MAIN.C:96-229 | over a run `nextEvent` stays right, or the alarm, exactly while no such step comes |
| SchedulerRuns.DeadStaysDead | NDIS/MAIN.C:149-212 | after that no run of polls and adds fires anything |
| SchedulerRuns.MidnightCanKill | NDIS/MAIN.C:126-138 | a concrete state from which it happens |
| SchedulerTimes.FiresOnTime | NDIS/MAIN.C:96-178 | in a steady run an event fires at the first poll, from a second tick on, whose absolute clock has passed its absolute time, and at none before, across any number of midnights |
| SchedulerTimes.FiresIffPast | NDIS/MAIN.C:96-178 | for one poll: it fires the event exactly then |
| SchedulerTimes.PollOnSlot | NDIS/MAIN.C:151-163 | a poll that does not fire an event keeps it, with its absolute time |
| SchedulerTimes.AddHolds | NDIS/MAIN.C:180-212 | an accepted event is held for the time it asks for exactly when no midnight has gone by since the last poll and its delay fits in 32 bits |
| SchedulerTimes.ExpiryIsLater | NDIS/MAIN.C:191-192 | a delay is 18.2 ticks a second, rounded down, exactly up to 23598721 seconds, and shorter beyond |
| SchedulerCode.EventQueue.AddScheduledEvent | NDIS/MAIN.C:180-212 | the code takes the first free slot and recomputes `nextEvent` |
| SchedulerCode.EventQueue.DeleteScheduledEvent | NDIS/MAIN.C:214-229 | the code clears the slot and recomputes `nextEvent` |
| SchedulerCode.EventQueue.CheckMisc | NDIS/MAIN.C:96-178 | the code, callbacks adding events meanwhile, equals the poll on values |
| SchedulerCode.EventQueue.RetimeEvents | NDIS/MAIN.C:119-142 | the midnight loop equals the retiming on values |
| SchedulerCode.EventQueue.FireExpired | NDIS/MAIN.C:156-163 | the firing loop equals the sweep on values |
| SchedulerCode.EventQueue.FindNextEvent | NDIS/MAIN.C:167-175 | the loop leaves the least pending time, or 0 |
| ArpOwnership.StepKeeps | NDIS/IP.C:142-209 | every operation keeps each waiting packet owned by exactly one pending entry and accounts for every block |
| ArpOwnership.EveryPacketHasOneOwner | NDIS/IP.C:459-670 | over every run no packet is freed twice, the "pending packet missing" branches never run, and each packet has been freed once or has one owner |
| ArpTimers.TickAges | NDIS/IP.C:157-205 | a tick ages every entry by itself, in whatever order |
| ArpTimers.AnsweredOrDropped | NDIS/IP.C:157-205 | a pending entry that is not refreshed is answered or dropped within its remaining ticks, at most ten |
| ArpTimers.LastTickDrops | NDIS/IP.C:177-198 | exactly the last of them drops the entry and frees its packet |
| ArpTimers.AnswerDeliversLastPacket | NDIS/IP.C:476-498 | a reply, or a request from the address itself, sends the last packet sent to it, unchanged, and frees it |
| ArpAnswers.SendToResolved | NDIS/IP.C:442-457 | a packet to a resolved neighbour goes out at once, unchanged, to the hardware address of its entry |
| ArpAnswers.SendToOther | NDIS/IP.C:458-504 | a packet to any other address is held, not sent, and the address is asked for |
| ArpAnswers.ReplyResolves | NDIS/IP.C:633-664 | a unicast reply to a pending request resolves its entry to the sender and changes no other |
| ArpAnswers.ReplyIgnored | NDIS/IP.C:633-648 | a reply from a multicast address, or to no pending request, changes nothing |
| ArpAnswers.RequestResolves | NDIS/IP.C:545-621 | a request is answered, and resolves its sender, exactly when there is a slot |
| ArpAnswers.StaysResolved | NDIS/IP.C:459-670 | while its entry is valid a neighbour stays resolved to what it said last, except when a request is recorded for its address in an earlier slot |
| ArpAnswers.PacketsFollowAnswers | NDIS/IP.C:439-670 | so after a reply, over any such run, every packet to the address goes to the hardware address last given |
| ArpAnswers.AnswersRunOut | NDIS/IP.C:164-178 | an entry that neither packets nor requests refresh stays valid exactly until the ticks it had left have gone by |
| ArpAnswers.TickAsks | NDIS/IP.C:177-197 | a tick asks again for exactly the addresses whose entries are due and have retries left |
| ArpTimers.RetriesNeverReset | NDIS/IP.C:181-196 | no operation lowers a slot's retry count |
| ArpTimers.SilentAddressSpendsSlot | NDIS/IP.C:181-196 | from the empty table one send and eight unanswered ticks use up a slot's retries |
| ArpTimers.SpentSlotStaysSpent | NDIS/IP.C:181-196 | a slot without retries left gives every later address at most two ticks |
| ArpTimers.RequestIsFoundIfPalindrome | NDIS/IP.C:544-566 | a new requester is found again exactly when its address reads the same in both byte orders |
| ArpTimers.RequestsFillTable | NDIS/IP.C:544-566 | other requesters take one more slot with each request |
| ArpTimers.SixteenRequestsBlock | NDIS/IP.C:459-474 | after sixteen such requests nothing is sent to a new address |
| ArpTimers.GoesOnIffKnown | NDIS/IP.C:309-338 | from any sound table whose neighbours the bridge knows, a run ends the program exactly when a reply, or a request that finds a slot, comes from a sender it does not know |
| ArpTimers.OnlyUnknownSendersStop | NDIS/IP.C:533-679 | the same from the empty table: no send, tick or missing packet ever ends it |
| ArpCode.ArpTable.ArpLookupIp | NDIS/IP.C:78-109 | the first used entry with the address |
| ArpCode.ArpTable.ArpAdd | NDIS/IP.C:142-155 | the first unused entry |
| ArpCode.ArpTable.SendvIp | NDIS/IP.C:439-505 | the code equals the operation on values, or ends the program on an address the bridge does not know |
| ArpCode.ArpTable.AnswerRequest | NDIS/IP.C:545-638 | a request updates or creates the sender's entry, sends what waited for it, and is answered; a sender the bridge does not know ends the program |
| ArpCode.ArpTable.TakeReply | NDIS/IP.C:640-672 | a reply resolves only a pending entry; a sender the bridge does not know ends the program |
| ArpCode.ArpTable.HandleArp | NDIS/IP.C:533-679 | the code equals the operations on values and ends the program when they say; other codes do nothing |
| ArpCode.ArpTable.ArpCallBack | NDIS/IP.C:157-209 | the timer loop equals a tick |
| TxRing.FillKeeps | pm_drvr/3c575_cb.c:1461-1466 | writing a descriptor overwrites no live copy |
| TxRing.FetchKeeps | pm_drvr/3c575_cb.c:1473-1475 | the card takes the next queued descriptor and its pointer moves to the following one |
| TxRing.LinkKeeps | pm_drvr/3c575_cb.c:1468-1478 | linking extends the card's list by one and keeps the invariant |
| TxRing.ReapIsFetched | pm_drvr/3c575_cb.c:1556-1571 | the handler frees only fetched entries, whose copies are live |
| TxRing.NextKeeps | pm_drvr/3c575_cb.c:1431-1578 | every step of thread, card and handler keeps the ring's invariant |
| TxRing.RingIsSafe | pm_drvr/3c575_cb.c:1431-1578 | over any interleaving the card's list is exactly the unfetched suffix, what was fetched is a prefix, at most sixteen entries are in use, no copy is freed twice and only those in use are live |
| TxRing.CloseKeeps | pm_drvr/3c575_cb.c:1874-1882 | closing frees every copy that is left, once |
| TxRing.FullIsExact | pm_drvr/3c575_cb.c:1480-1482 | between calls of any run `tx_full` is set on a full ring, and on another exactly when a step that spoils it has come with no interrupt or closing since |
| TxRing.MistakenIffSpoiled | pm_drvr/3c575_cb.c:1481-1482 | the step that spoils it is the mark set after the handler made room, or opening with the mark set; an interrupt or closing mends it |
| TxRing.RunMistaken | pm_drvr/3c575_cb.c:1431-1578 | so over any run from a good state |
| TxRing.OvertakenMarkSticks | pm_drvr/3c575_cb.c:1481-1482 | a handler that drains the ring before the mark is set leaves it empty and refusing every packet, whatever follows but an interrupt or closing |
| TxRing.OvertakenFromPowerUp | pm_drvr/3c575_cb.c:1431-1578 | a run from power-up that ends so |
| TxRing.CloseWhileFullSticks | pm_drvr/3c575_cb.c:969-980 | so does closing a full device and opening it again |
| TxRing.ClosedFullFromPowerUp | pm_drvr/3c575_cb.c:969-980 | a run from power-up that ends so |
| TxRing.WrappedMinus | pm_drvr/3c575_cb.c:1481 | differences of the 32-bit counters are those of the true counts |
| TxRingCode.SendIsRun | pm_drvr/3c575_cb.c:1431-1493 | an uninterrupted send is a run of the thread's steps and leaves the mark exactly when the ring is then full |
| TxRingCode.HandleAllIsRun | pm_drvr/3c575_cb.c:1551-1578 | an uninterrupted handler is a run of its steps that frees every counted and fetched entry |
| TxRingCode.Vortex.BoomerangStartXmit | pm_drvr/3c575_cb.c:1431-1493 | the code equals that send |
| TxRingCode.Vortex.DownComplete | pm_drvr/3c575_cb.c:1551-1578 | the code equals that handler |
| TxRingCode.Vortex.VortexUp | pm_drvr/3c575_cb.c:969-980 | counters, copies and list pointer reset; `tx_full` kept |
| TxRingCode.Vortex.FreeBuffers | pm_drvr/3c575_cb.c:1876-1881 | the loop frees every copy that is left |
| TxRingCode.Vortex.VortexClose | pm_drvr/3c575_cb.c:1812-1882 | the list is taken from the card and every copy freed |

## Left out

- Raw packet layout: IP, TCP, UDP and ARP headers arrive decoded.
- Disk files, syslog, statistics printing and debug output: they change nothing that is modelled.
- XMS memory is a map keyed by handle; an allocation gives a fresh handle with arbitrary contents, or 0.
- The clock is an input wherever it is read, and so are random words.
- Token ring and FDDI framing, class, reject and allow table loads: copies without further logic.
- Bridge.BridgeTable.Probe: the probing loop, which the source writes out twice, is one method here.
- BridgeInterrupts.InterruptsAreSafe: comparing a slot's address counts as one step, and zero addresses are excluded; `BridgeFaults.UntrueIffMisplaced` says what they can do.
- NetworkModel.RunIsMap: releases of network 0 and of tables that are not clean are excluded, with `NetworkTable.ReleaseIsClean` for what happens then; `NetworkRuns.RunIsTransparent` includes them.
- NetworkRuns.RunIsTransparent: a run ends before an installation into a full table, which leaves an entry without a block (`NetworkModel.FullLoadDestroys`), and before a release whose scan does not end.
- NetworkRuns.LoadKeeps: the same installation is excluded.
- NetworkRuns.CacheIsInvisible: the same runs as `NetworkRuns.RunIsTransparent`.
- NetworkTables.Tables.HandleReleaseNetwork: the scan must end; `NetworkEdits.ReleaseIsReleased` and `NetworkEdits.ZeroReleaseStops` say when it does.
- CacheReplacement.RunKeepsRecent: clock readings are nonzero and increase.
- AccessLists.ScanIsMembership: a list without a terminator, which the source would scan past its class, is excluded.
- Filter.Checks.CheckAllow: the source reads one entry past the allow and reject tables before it tests the bound; the bound is tested first here.
- Session.HandleKeeps: datagrams shorter than their header or than a SYNC body, and bodies beyond the 5120-byte buffer, are not modelled.
- SessionCode.Manager.DispatchMessage: the handlers of loads, queries, writes, releases and statistics appear as the replies they send.
- PacketFlow.BuffersAreConserved: `sendPacket` and the card callbacks, whose bodies are not part of the repository, hand a buffer over and later free it.
- PacketQueues.Cards.CheckCard: the tests on pending sends and sequence numbers are answers supplied from outside, as is the decision on a packet (the code of that decision is `Filter.Checks`), and interrupts come between the steps of `PacketFlow` only.
- SchedulerRuns.EveryPollIsTimely: steps that stop the scheduler are excluded, exactly (`SchedulerRuns.SoundWhileSteady`); callbacks add events but do not delete any; no callback in the repository does.
- ArpCode.ArpTable.SendvIp: building the IP header (its checksum is `Checksum.InsertedVerifies`) and choosing gateway or neighbour come before; the allocation of the copy succeeds; what the bridge knows is an input.
- TxRing.RingIsSafe: the status and length fields, the register windows and the transmit timeout; the card takes a descriptor and its link in one step, and the handler does not interrupt the few instructions that write one descriptor.
- TxRingCode.Vortex.DownComplete: the other branches of the interrupt handler.
- The receive ring, the other card drivers and the real-mode packet driver interface.

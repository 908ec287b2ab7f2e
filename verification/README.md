# Verified models of Click elements

This project models, in Dafny, the elements of the repository that hold real state machines, allocators, indexes and
codecs, and proves whole-run properties of them. One file per component:

| file | component |
|---|---|
| InferIPAddrColors.dfy, CompactColors.dfy | address colour inference: a union-find with parity over the packets seen, and its compaction as an unobservable renaming |
| PPPControlProtocol.dfy | the PPP control-protocol automaton (section 4 of RFC 1661), one endpoint and two endpoints over a bad channel |
| SNMPOidTree.dfy | the OID trie: heap nodes with parent, sibling and child pointers against a plain map |
| SNMPBER.dfy | the BER encoder (X.690) with back-patched lengths against an independent decoder |
| RC5.dfy, MapTRW.dfy | the cipher, and the set-associative IP table that it indexes |
| PriorityQueue.dfy | bounded multi-queue storage with a cyclic service pointer |
| BackpressureFlood.dfy | the backpressure query flood and its replies, over a network of n nodes |
| LeasePool.dfy | the DHCP lease allocator and the server's DISCOVER, REQUEST and RELEASE steps (RFC 2131) |
| DHCPOptions.dfy | the DHCP option iterator with its overload continuation |
| TCPAddressTranslator.dfy | NAT-PT sequence shifting modulo 2^32 and the incremental checksum (RFC 1624) |
| DNSMessage.dfy, DNSReverse.dfy | the DNS codec (RFC 1035) and reverse names of IPv6 addresses (RFC 1886) |
| Common.dfy | shared types |

Each component is written twice. Step functions on immutable values say what one call does; classes and methods with the
source's fields, loops and in-place updates are proved to do exactly that. The theorems are then about every run of the
step functions. Packets are records, timers are flags, hash tables are maps, and what a component asks of code outside
the model (the verdict of `reqci`, the opinion of the link table, the clock, uninitialised memory) is an arbitrary input.

## What turned out false, and exactly when

- Colour inference does not record a conflict on every odd closed walk. It records none exactly when every packet from
  an address to itself is the first packet of that address and the other packets have no odd closed walk
  (`ConflictFreeExactly`), so it misses an inconsistency exactly when such first packets are the only ones
  (`ConflictMissedExactly`).
- Two PPP endpoints as the element starts them stay STOPPED for ever (`NobodyOpens`). An OPENED endpoint holds an
  acknowledgement of its current request id; that it is one of its current request is guaranteed for exactly those
  numbers of drawn ids that do not exceed 256 (`AgreementExactly`).
- The automaton departs from the table of RFC 1661 exactly where `Departs` says (`RunFollowsTable`): it negotiates in
  STOPPING, ignores a second answer to the same request, and answers neither an unknown code nor a Protocol-Reject.
- A request with a server identifier is acknowledged whichever server it names (`AckExactly`, `OfferIsHonoured`), and a
  renewal sets the end of the lease to twice the current time instead of adding its duration (`RequestChanges`).
- `push` may charge a failure of the source to the destination: the destination's lookup takes over the source's way
  exactly when both are in one set that is full, has no record of the destination and in which the source's is the
  smallest (`SourceKeptExactly`). With one way per set, which `configure` accepts, that is every pair of addresses of one
  set (`OneWaySets`).
- `pop_sequence` loses the last content octet when it has to shift the contents. It is right whatever the memory holds
  exactly when the contents fit the reserved length octets (`PopsProperlyExactly`), and otherwise exactly when stray memory
  happens to equal that octet (`ShiftExact`).
- A flood is finite in networks of up to 256 nodes. The link count in the header is one byte, and with 257 nodes or more
  a single flood has runs of every length (`FloodIsFinite`, `FloodNeverEnds`). In networks of any size the paths that can
  come back in a reply are exactly those of up to 256 nodes (`FoundExactly`); a reply over 257 nodes dies at its first hop.
- A pool that starts at 0.0.0.0 refuses its first client; every other pool serves it (`FirstClientServed`).
- `update_seqno_delta` counts a retransmitted edit twice exactly when its three fields have gone back to zero
  and the edit is not itself without effect (`UpdateTracks`, `TracksExactly`, `CountedTwice`). An acknowledgement comes back
  right exactly when its translated number lies on the same side of the last trigger or the last edit changed no length
  (`AckReturnsExactly`, `AckComesBackWrong`).
- `rfc1035NameUnpack` returns the name of a built query exactly when the name is not empty and fits the caller's buffer
  with its terminator (`QueryRoundTrip`); the empty name is accepted and its terminator lands in front of the buffer. An
  IPv6 string with `::` has fewer than eight groups, and only those it has come back.

## Model

| member | source | states |
|---|---|---|
| `InferIPAddrColors.RunInvariant` | models/package/inferipaddrcolors.cc:69-127 | after every packet sequence: the mapping is a forest of colour pairs that strictly descends and respects parity; equal root pairs are joined by a walk of seen packets whose parity is the difference of the colours; every accepted packet between distinct good addresses has opposite colours; a bad address lies on an odd closed walk |
| `InferIPAddrColors.UpdateColors` | models/package/inferipaddrcolors.cc:97-124 | what one packet does to the fully resolved colour of every address, stale ones included |
| `InferIPAddrColors.EndpointsResolved` | models/package/inferipaddrcolors.cc:89-124 | both addresses of a packet are left with a colour field that is the end of its chain |
| `InferIPAddrColors.ResolveMerged` | models/package/inferipaddrcolors.cc:110-119 | after a merge exactly the colours of the child pair move, by parity |
| `InferIPAddrColors.ResolveFlip` | models/package/inferipaddrcolors.cc:89-95 | the two halves of a pair always resolve to opposite colours |
| `InferIPAddrColors.RunTwoColored` | models/package/inferipaddrcolors.cc:97-124 | in a run without conflicts every packet between different addresses joins opposite colours |
| `InferIPAddrColors.ColorsAreComponents` | models/package/inferipaddrcolors.cc:89-124 | in every run two good addresses are in one class, with a given parity, if and only if the packets kept join them by a walk of that parity |
| `InferIPAddrColors.ConflictOnlyOnEvenWalk` | models/package/inferipaddrcolors.cc:120-124 | BADCOLOR is assigned only when earlier packets join the two endpoints by an even walk, which the packet closes to an odd one |
| `InferIPAddrColors.ConflictExactly` | models/package/inferipaddrcolors.cc:120-124 | in every run, conflicts and self-packets included: which address a packet makes BADCOLOR, and that it does so if and only if neither end is bad and kept packets join them by an even walk |
| `InferIPAddrColors.BadExactly` | models/package/inferipaddrcolors.cc:89-124 | in every run an address is BADCOLOR if and only if a reference that looks at packets and walks alone finds it inconsistent |
| `InferIPAddrColors.ConflictMeansOddWalk` | models/package/inferipaddrcolors.cc:120-124 | any recorded conflict proves an odd closed walk |
| `InferIPAddrColors.NoConflictMeansBipartite` | models/package/inferipaddrcolors.cc:97-124 | without recorded conflict, an odd closed walk exists if and only if some packet went from an address to itself |
| `InferIPAddrColors.ConflictFreeExactly` | models/package/inferipaddrcolors.cc:97-124 | no conflict is recorded if and only if every self-packet is the first packet of its address and the other packets have no odd closed walk |
| `InferIPAddrColors.ConflictMissedExactly` | models/package/inferipaddrcolors.cc:97-124 | exactly which packet sequences are inconsistent without a conflict being recorded |
| `InferIPAddrColors.SelfPacketIsNotFlagged` | models/package/inferipaddrcolors.cc:99-105 | the smallest run in which the conflict is missed |
| `InferIPAddrColors.Element.ResolveColor` | models/package/inferipaddrcolors.cc:89-95 | the resolve loop terminates at the root of the colour |
| `InferIPAddrColors.Element.UpdatePacket` | models/package/inferipaddrcolors.cc:69-127 | the whole new state of the element, inactive and non-IP cases included; after an accepted packet it is the state of the run extended by that packet |
| `CompactColors.CompactedColors` | models/package/ipaddrcolors.cc:368-399 | compaction replaces every resolved colour by its rank among the colours left, and no merge stays pending |
| `CompactColors.RankFlip` | models/package/ipaddrcolors.cc:382-388 | renumbering keeps opposite colours opposite |
| `CompactColors.RankOrder` | models/package/ipaddrcolors.cc:382-388 | renumbering keeps the order of colour pairs |
| `CompactColors.UpdateRenames` | models/package/inferipaddrcolors.cc:89-124 | a packet does the same to two colourings that differ by a renaming of colours |
| `CompactColors.CompactRenames` | models/package/ipaddrcolors.cc:368-399 | compaction is such a renaming |
| `CompactColors.CompactionUnobservable` | models/package/ipaddrcolors.cc:368-399 | in every run of packets with compactions anywhere in between, the same addresses are bad, unseen, equal and opposite as in the run without them |
| `CompactColors.MixedFlat` | models/package/ipaddrcolors.cc:371-373 | in every such run a colouring marked as compact has no pending merge, so skipping the work is sound |
| `CompactColors.CompactedIsFlat` | models/package/ipaddrcolors.hh:101-108 | after compaction one look at the mapping gives the resolved colour of every address |
| `InferIPAddrColors.Element.ResolveChains` | models/package/ipaddrcolors.cc:375-380 | the in-place loop replaces every entry of the mapping by the end of its chain |
| `InferIPAddrColors.Element.AllocateColors` | models/package/ipaddrcolors.cc:382-388 | the in-place loop numbers the ends in order and gives every other entry the number of its end |
| `InferIPAddrColors.Element.CompactColors` | models/package/ipaddrcolors.cc:368-399 | the whole new state of the element after a compaction |
| `PPPEndpoint.RunKeepsInv` | iias/ppp/pppcontrolprotocol.cc:120-410 | in every run the timer is scheduled exactly in REQSENT, ACKRCVD, ACKSENT and STOPPING, the counter stays in 0..10, is 0 in STOPPING and 10 in ACKRCVD and OPENED, and these two imply seen_ack |
| `PPPEndpoint.RestartCasesUnreachable` | iias/ppp/pppcontrolprotocol.cc:228-303 | in ACKRCVD and OPENED the guard rejects every CONFACK, CONFNAK and CONFREJ, so their restart cases are never reached |
| `PPPEndpoint.GivesUpExactly` | iias/ppp/pppcontrolprotocol.cc:190-226 | from every reachable waiting state STOPPED is reached by exactly retransmits + 1 consecutive timeouts, not earlier |
| `PPPEndpoint.FrameFollowsTable` | iias/ppp/pppcontrolprotocol.cc:143-410 | in every state that satisfies the invariant, next state, codes sent and restart counter are those of the table in section 4.1 of RFC 1661 if and only if the frame is none of the named departures |
| `PPPEndpoint.RunFollowsTable` | iias/ppp/pppcontrolprotocol.cc:143-410 | the same in every run, timeouts included, which never depart |
| `PPPEndpoint.DeparturesDo` | iias/ppp/pppcontrolprotocol.cc:143-303 | what the departures do: a request in STOPPING is answered as if in REQSENT, the others do nothing |
| `PPPEndpoint.AnswersEcho` | iias/ppp/pppcontrolprotocol.cc:143-330 | answers repeat the id of the frame answered, configure answers its options too; everything else sent is a new request |
| `PPPEndpoint.SeenAckExactly` | iias/ppp/pppcontrolprotocol.cc:120-303 | seen_ack is set by an answer to the request outstanding and cleared by the next request, and by nothing else |
| `PPPEndpoint.TermReqLeaves` | iias/ppp/pppcontrolprotocol.cc:305-330 | a TERMREQ leaves none of OPENED, ACKRCVD and ACKSENT, sends exactly one TERMACK with its id, and takes OPENED to STOPPING with the timer running and no retransmissions left |
| `PPPEndpoint.StoppingEnds` | iias/ppp/pppcontrolprotocol.cc:190-351 | in every run without a CONFREQ the first TERMACK or timeout takes STOPPING to STOPPED, and nothing leads out of these two states |
| `PPPEndpoint.TerminatedUntilRequest` | iias/ppp/pppcontrolprotocol.cc:190-351 | after a TERMREQ in OPENED, whatever the peer sends but a CONFREQ: STOPPED once a TERMACK or timeout has come, STOPPING before |
| `PPPLink.RunKeepsInv` | iias/ppp/pppcontrolprotocol.cc:120-188 | over a channel that loses, duplicates and reorders: ids are serial numbers modulo 256, acknowledgements answer sent requests, ACKRCVD and OPENED have been acknowledged, ACKSENT and OPENED have acknowledged |
| `PPPLink.OpenedIsAgreed` | iias/ppp/pppcontrolprotocol.cc:120-268 | an OPENED endpoint's peer sent a CONFACK for a CONFREQ with the current reqid, for the current request itself while at most 256 ids are drawn, and the endpoint acknowledged the last CONFREQ it processed |
| `PPPLink.AgreementExactly` | iias/ppp/pppcontrolprotocol.cc:120-303 | OPENED after k drawn ids guarantees that the current request itself was acknowledged if and only if k is at most 256 |
| `PPPLink.OpensOnOldAck` | iias/ppp/pppcontrolprotocol.cc:228-303 | for every larger k a run that opens on the acknowledgement of an older request |
| `PPPLink.StepDrawsOneId` | iias/ppp/pppcontrolprotocol.cc:120-141 | every step draws at most one id and a new request always carries the drawn one |
| `PPPLink.NobodyOpens` | iias/ppp/pppcontrolprotocol.hh:88-96 | two endpoints in their initial state never leave STOPPED |
| `PPPLink.NobodyTerminates` | iias/ppp/pppcontrolprotocol.cc:190-330 | in every run of two such elements no TERMREQ is ever sent and STOPPING is never entered |
| `PPPLink.HandshakeOpens` | iias/ppp/pppcontrolprotocol.cc:143-268 | with one initiator there is a run that opens both ends |
| `PPPControlProtocol.ControlProtocol.SendConfReq` | iias/ppp/pppcontrolprotocol.cc:120-141 | the frame carries the id now waited for; a retransmission repeats it and a new request draws one; sent while negotiating it keeps the run invariant |
| `PPPControlProtocol.ControlProtocol.ReceiveConfReq` | iias/ppp/pppcontrolprotocol.cc:143-188 | new state and answers for every state and verdict; the timer assertion holds |
| `PPPControlProtocol.ControlProtocol.TimerFired` | iias/ppp/pppcontrolprotocol.cc:190-226 | the timeout hook does the timeout step |
| `PPPControlProtocol.ControlProtocol.ReceiveConfAck` | iias/ppp/pppcontrolprotocol.cc:228-268 | the CONFACK step, timer assertions included |
| `PPPControlProtocol.ControlProtocol.ReceiveConfNakRej` | iias/ppp/pppcontrolprotocol.cc:270-303 | the CONFNAK/CONFREJ step, timer assertions included |
| `PPPControlProtocol.ControlProtocol.ReceiveTermReq` | iias/ppp/pppcontrolprotocol.cc:305-330 | the TERMREQ step, which TermReqLeaves and FrameFollowsTable describe |
| `PPPControlProtocol.ControlProtocol.ReceiveTermAck` | iias/ppp/pppcontrolprotocol.cc:332-351 | the TERMACK step, which FrameFollowsTable and StoppingEnds describe |
| `PPPControlProtocol.ControlProtocol.Receive` | iias/ppp/pppcontrolprotocol.cc:353-410 | dispatch of every packet, malformed and foreign ones included, by the step RunFollowsTable describes; keeps the invariant |
| `SNMPOidTree.LookupIsLastInserted` | snmp/snmpoidtree.hh:55-71 | after any inserts the map gives the value inserted last for an OID, or -1 |
| `SNMPOidTree.StoredPaths` | snmp/snmpoidtree.cc:121-157 | a path is stored if and only if it is a non-empty prefix of an inserted OID |
| `SNMPOidTree.InsertAll` | snmp/snmpoidtree.hh:64-71 | the heap tree after any inserts refines that map, and every node handed out on the way still stands for its OID |
| `SNMPOidTree.AttachLinked` | snmp/snmpoidtree.cc:38-68 | linking a node as last sibling keeps the parent, sibling and child pointers of the whole tree consistent |
| `SNMPOidTree.AttachContents` | snmp/snmpoidtree.cc:38-68 | linking a node adds exactly one entry, with data -1 |
| `SNMPOidTree.OidTree.AllocNode` | snmp/snmpoidtree.cc:38-68 | the tree stays valid, one path is added, every earlier node keeps its OID |
| `SNMPOidTree.OidTree.FindNode` | snmp/snmpoidtree.cc:70-89 | the node of the OID, or null exactly if there is none |
| `SNMPOidTree.OidTree.Find` | snmp/snmpoidtree.hh:55-62 | the data of the OID, or -1 |
| `SNMPOidTree.OidTree.FindPrefix` | snmp/snmpoidtree.cc:91-119 | the longest stored path along the OID, and its data |
| `SNMPOidTree.OidTree.ForceNode` | snmp/snmpoidtree.cc:121-157 | the node of the OID; missing prefixes are added with -1 and nothing else changes |
| `SNMPOidTree.OidTree.ExtractOid` | snmp/snmpoidtree.cc:159-169 | the OID of any node of the tree |
| `SNMPOidTree.OidTree.Insert` | snmp/snmpoidtree.hh:64-71 | one entry is set, every other one is kept, earlier nodes keep their OIDs; null exactly for the empty OID |
| `RC5.WordLaws` | security/rc5.cc:29-30 | on 16-bit words the two rotations undo each other, as do addition and subtraction, and exclusive or undoes itself |
| `RC5.RotateMultiplies` | security/rc5.cc:29-30 | the left rotation by c multiplies by 2^(c mod 16) modulo 65535, the right rotation divides, and only 0 goes to 0 |
| `RC5.RoundInverse` | security/rc5.cc:75-102 | one encryption round and one decryption round are mutual inverses |
| `RC5.CipherInverse` | security/rc5.cc:67-110 | for every key and every 32-bit word encryption and decryption are mutual inverses |
| `RC5.Scramble` | security/rc5.cc:67-86 | the encryption loop computes the recursive cipher |
| `RC5.Unscramble` | security/rc5.cc:88-110 | the decryption loop computes the recursive inverse |
| `RC5.EncryptWord` | security/rc5.cc:67-86 | the ciphertext of a word, and that decryption returns the word |
| `RC5.DecryptWord` | security/rc5.cc:88-110 | the plaintext of a word, and that encryption returns the word |
| `IPTable.AgeTowardZero` | security/map_trw.cc:567-596 | ageing moves the count toward zero without crossing it and keeps the tag |
| `IPTable.AgeExactly` | security/map_trw.cc:567-596 | ageing takes exactly as many steps as bring the stamp within the period of its sign, or the count to zero; each moves the count by one and the stamp by incr_age modulo 256; a record within its period is unchanged |
| `IPTable.FindKeepsSetOk` | security/map_trw.cc:553-633 | a lookup returns the first slot with the tag, aged into its period, or an unused way, or evicts a way of minimum count only if all are valid; any other record starts at count 0 with the current stamp; no other way changes and valid tags stay distinct |
| `MapTRW.NoAlias` | security/map_trw.cc:553-562 | two different addresses never have both the same set and the same tag |
| `MapTRW.LookupIsolates` | security/map_trw.cc:553-633 | looking up one address leaves the record of every other as it was, or evicts it only from a full set with minimum count |
| `MapTRW.PushKeepsOk` | security/map_trw.cc:408-471 | every packet keeps all counts within the configured limits, so never the -128 marker |
| `MapTRW.ReachableRecords` | security/map_trw.cc:408-471 | in every table reachable by IP traffic every valid record is within the limits and no other valid record of its set has its tag |
| `MapTRW.SourceKeptExactly` | security/map_trw.cc:376-377 | after both lookups of a packet the record held for the source is still the source's if and only if the destination's lookup did not have to evict it |
| `MapTRW.OneWaySets` | security/map_trw.cc:611-632 | with one way per set the destination takes over if and only if it is in the same set |
| `MapTRW.ChargedToDestination` | security/map_trw.cc:447-471 | then a failed attempt of the source leaves a count of 1 on the destination's fresh record |
| `MapTRW.LookupGives` | security/map_trw.cc:553-633 | in the whole table a lookup gives its address the old record, aged into its period, or a new one with count 0 and the current stamp |
| `MapTRW.DropExactly` | security/map_trw.cc:376-444 | a packet is dropped if and only if the source still holds its record, the aged count is at least the block count, and the packet is an attempt or, on a connection of its source, of a blocked kind |
| `MapTRW.PushExactly` | security/map_trw.cc:408-471 | the records of both addresses after a packet: a failure raises the count of the source by one up to the maximum, an acknowledgement lowers that of the destination by two down to the minimum, both restart the period; after a takeover the source has no record and the destination is charged |
| `MapTRW.WalkTracks` | security/map_trw.cc:408-471 | in every run without ageing the count of an address alone in its set is the random walk of its failures and acknowledgements |
| `MapTRW.VerdictFollowsWalk` | security/map_trw.cc:408-471 | in such a run a packet of that address is dropped if and only if the walk so far is at least the block count and the packet is of a kind that is blocked |
| `MapTRW.FirstAttemptsPass` | security/map_trw.cc:442-471 | of the unanswered attempts of such an address exactly the first blockCount pass |
| `MapTRW.PushIsolates` | security/map_trw.cc:408-471 | one packet changes no record but those of its two addresses; any other record is kept as it was or evicted |
| `MapTRW.Detector.ScanSmallest` | security/map_trw.cc:611-619 | the eviction scan finds the first way of minimum count |
| `MapTRW.Detector.FindIp` | security/map_trw.cc:553-633 | the in-place table after `find_ip`, recursion included, which FindKeepsSetOk and LookupGives describe |
| `MapTRW.Detector.Decide` | security/map_trw.cc:408-471 | the decision tree and its clamped count updates, which DropExactly and PushExactly describe |
| `MapTRW.Detector.PushPacket` | security/map_trw.cc:408-471 | the new table and the verdict for one packet, which DropExactly and PushExactly describe |
| `Geometry.CheckPowerOfTwo` | security/map_trw.cc:769-778 | which sizes the divisibility loops accept, and the one for which the shift is undefined |
| `Geometry.ComputeShift` | security/map_trw.cc:764-768 | the shift loop finds the logarithm of the number of sets, or never ends |
| `Geometry.Configure` | security/map_trw.cc:764-782 | a geometry is accepted if and only if it has exactly 2^16 sets, so index and tag are the two halves of the cipher word |
| `BER.DecodeEncode` | snmp/snmpber.cc:41-74 | a plain BER decoder recovers every tree of items whose contents fit their length octets |
| `BER.LengthReads` | snmp/snmpber.cc:41-74 | length octets of every size are read back, whatever follows |
| `BERContents.IntegerRoundTrip` | snmp/snmpber.cc:236-264 | every integer is recovered and its octets are the shortest two's complement form |
| `BERContents.OidRoundTrip` | snmp/snmpber.cc:133-196 | every accepted OID is recovered from its contents octets |
| `BERContents.ComponentShortest` | snmp/snmpber.cc:166-196 | no component starts with a zero digit, and its size is the one precomputed |
| `SNMPBER.StepRepresents` | snmp/snmpber.cc:76-130 | every push, encode, pop and abort keeps the buffer the encoding of the call tree so far, open sequences included |
| `SNMPBER.BalancedRunDecodes` | snmp/snmpber.cc:76-264 | every balanced run in which no sequence outgrows its reserved length octets yields bytes that decode to exactly the calls that were not aborted |
| `SNMPBER.Encoder.PushSequence` | snmp/snmpber.cc:76-86 | whatever tree the buffer stood for, it now stands for that tree with one more open sequence |
| `SNMPBER.Encoder.PushLongSequence` | snmp/snmpber.cc:88-98 | the same with three reserved length octets |
| `SNMPBER.Encoder.PopSequence` | snmp/snmpber.cc:100-120 | where the reserved octets suffice, the innermost sequence of whatever tree the buffer stood for is closed; otherwise all octets but the last are right |
| `SNMPBER.Encoder.AbortSequence` | snmp/snmpber.cc:122-130 | whatever tree the buffer stood for, it now stands for that tree without the innermost open sequence and all its contents |
| `SNMPBER.Encoder.EncodeNull` | snmp/snmpber.cc:222-233 | NULL is appended |
| `SNMPBER.Encoder.EncodeOctetString` | snmp/snmpber.cc:198-219 | the string is appended, or refused over 65535 octets with the buffer untouched |
| `SNMPBER.Encoder.EncodeInteger` | snmp/snmpber.cc:236-264 | the shortest form of any signed or unsigned 64-bit value is appended |
| `SNMPBER.Encoder.EncodeOid` | snmp/snmpber.cc:133-196 | which OIDs are refused and why; accepted ones are appended |
| `SNMPBER.OidLength` | snmp/snmpber.cc:139-152 | the precomputed length is the number of octets written |
| `SNMPBER.OidContents` | snmp/snmpber.cc:166-196 | the second loop writes the base-128 components |
| `SNMPBER.Shifted` | snmp/snmpber.cc:109-118 | what the off-by-one move does to a sequence that outgrew its length octet |
| `SNMPBER.ShiftExact` | snmp/snmpber.cc:109-118 | such a sequence is encoded correctly if and only if stray memory equals its last octet |
| `SNMPBER.PopsProperlyExactly` | snmp/snmpber.cc:100-120 | a pop is right whatever the memory holds if and only if the contents fit the reserved length octets |
| `PriorityQueue.SplitFits` | others/priorityqueue.cc:89-95 | the short queues together never exceed the capacity, so the long one gets the rest |
| `PriorityQueue.NeverOverCapacity` | others/priorityqueue.cc:204-259 | whatever is pushed and pulled, the stored packets never exceed the capacity |
| `PriorityQueue.StepKeepsInv` | others/priorityqueue.cc:204-259 | queue limits hold and each per-paint bucket counter equals the number of that paint in the last queue |
| `PriorityQueue.Conservation` | others/priorityqueue.cc:204-259 | every accepted packet is stored or has been pulled, exactly once |
| `PriorityQueue.Fairness` | others/priorityqueue.cc:235-259 | a packet with k packets ahead of it is returned within (k+1)*N pulls whatever pushes interleave |
| `PriorityQueue.PushExactly` | others/priorityqueue.cc:204-232 | a packet is dropped, and counted, if and only if the last queue is full and its paint is at its goal or all short queues are full; else it goes to the end of the last queue, or, short of its goal, of the first short queue with room; marks and bucket follow |
| `PriorityQueue.PullExactly` | others/priorityqueue.cc:235-259 | a pull serves the first non-empty queue at or after the pointer, cyclically, takes its front packet and moves the pointer past it; with all queues empty nothing changes |
| `PriorityQueue.Element.PushPacket` | others/priorityqueue.cc:204-232 | new queues, counters and drops of one push, which PushExactly describes |
| `PriorityQueue.Element.PullPacket` | others/priorityqueue.cc:235-259 | the packet served, new queues and the moved pointer, which PullExactly describes |
| `BackpressureFlood.Header` | bp/bpmetricflood.cc:188-208 | the path a forwarded query carries is a prefix, never longer than 256 nodes, and the whole path if and only if that has at most 256 |
| `BackpressureFlood.ProcessKeeps` | bp/bpmetricflood.cc:342-373 | an accepted query is remembered behind the earlier ones in their order; at 100 only the oldest is forgotten |
| `BackpressureFlood.HookSends` | bp/bpmetricflood.cc:126-135 | the hook sends exactly one query for each entry that is due, held and valid, in the order of the list |
| `BackpressureFlood.HookReleases` | bp/bpmetricflood.cc:126-135 | the hook leaves no due entry held, and every other entry as it was |
| `FloodNetwork.StepKeepsInv` | bp/bpmetricflood.cc:262-373 | every start, reception, forwarding and loss anywhere keeps the network invariant, in networks of any size |
| `FloodNetwork.CopyPaths` | bp/bpmetricflood.cc:334-340 | in a network of any size, every query copy carries a duplicate-free path that starts at the querier |
| `FloodNetwork.QueryPaths` | bp/bpmetricflood.cc:136-219 | in networks of any size, every query ever broadcast has a duplicate-free path from the node that began the flood, and every node on it broadcast the query with the path up to itself |
| `FloodNetwork.RepliesRetrace` | bp/bpqueryresponder.cc:125-359 | in networks of any size, a reply that reaches the querier visited exactly the reverse of a query path, from the destination, and left a data queue for the destination at every interior node |
| `FloodNetwork.SendAssertion` | bp/bpqueryresponder.cc:93-108 | in networks of any size the assertion in `send` never fails, and `forward_reply` sees a strange next exactly on replies over more than 256 nodes |
| `FloodNetwork.EveryPathIsFound` | bp/bpqueryresponder.cc:167-255 | every duplicate-free path of up to 256 nodes to the destination comes back in some run, whatever the size of the network |
| `FloodNetwork.FoundExactly` | bp/bpqueryresponder.cc:125-255 | a path can come back in a reply if and only if it has at most 256 nodes |
| `FloodNetwork.FloodIsFinite` | bp/bpmetricflood.cc:330-373 | k floods in up to 256 nodes take at most k times a fixed number of steps, replies included |
| `FloodNetwork.FloodNeverEnds` | bp/bpmetricflood.cc:188-208 | with more than 256 nodes one flood has runs of every length |
| `FloodNetwork.FloodsIdentified` | bp/bpmetricflood.cc:228-260 | in every run querier and sequence number identify a flood, and no node remembers more than 100 queries |
| `BackpressureFlood.MetricFlood.ProcessFlood` | bp/bpmetricflood.cc:262-373 | the list of seen queries never outgrows 100; a query passed on was not on its own path and is remembered with a longer duplicate-free one; what is added is held exactly if it is not for this node |
| `BackpressureFlood.MetricFlood.ForwardQuery` | bp/bpmetricflood.cc:136-219 | a query is sent if and only if it is held and its route is valid; asked for again it is never sent again, and no other query is affected |
| `BackpressureFlood.MetricFlood.ForwardQueryHook` | bp/bpmetricflood.cc:126-135 | the hook loop, which HookSends and HookReleases describe |
| `BackpressureFlood.QueryResponder.ReceiveQuery` | bp/bpqueryresponder.cc:167-255 | when a query is answered; the reply first goes to the node the query came through, over the query's path, which repeats no node if the query's did not |
| `BackpressureFlood.QueryResponder.ReceiveReply` | bp/bpqueryresponder.cc:276-361 | when a reply is sent on; it moves one node closer to the querier over the same path and leaves a data queue for its destination; no data queue is lost |
| `Leases.FillInv` | dhcp/package/leasepool.cc:98-117 | the configured pool has every address of the range free and listed |
| `Leases.NewLeaseKeepsInv` | dhcp/package/leasepool.cc:63-81 | free and leased addresses partition the range, the two lease maps are mutual inverses, every free address is in the free list |
| `Leases.NewLeaseAnyExact` | dhcp/package/leasepool.cc:46-61 | allocation fails if and only if the client has no lease and nothing is free, despite stale and duplicate list entries; nobody loses a lease |
| `Leases.NewLeaseAnyGives` | dhcp/package/leasepool.cc:46-81 | a client without a lease gets the first listed address that is free, valid for 60 seconds from now; entries before it leave the list |
| `Leases.NewLeaseGives` | dhcp/package/leasepool.cc:63-81 | a free address asked for is leased to a client without one, with all fields of the lease |
| `Leases.RemoveKeepsInv` | dhcp/package/leasepool.cc:89-96 | a release keeps the invariant and every other lease |
| `Leases.FirstClientServed` | dhcp/package/leasepool.cc:63-81 | the first client of a new pool is served if and only if the range does not start at 0.0.0.0 |
| `LeaseServer.StepKeeps` | dhcp/package/dhcpserverack.cc:48-123 | every server step keeps the invariant; an acknowledged address is the client's lease; only a release takes a lease away |
| `LeaseServer.AckHolds` | dhcp/package/dhcpserverack.cc:48-123 | an acknowledged client holds its address until it releases it |
| `LeaseServer.AcksAreExclusive` | dhcp/package/dhcpserverack.cc:126-171 | over every run, two acknowledgements without a release by the first client in between name one address if and only if they name one client |
| `LeaseServer.NakExactly` | dhcp/package/dhcpserverack.cc:81-98 | NAK is sent if and only if the request names the address the client holds, names no server, and the lease has run out |
| `LeaseServer.AckExactly` | dhcp/package/dhcpserverack.cc:65-105 | when ACK is sent, for all cases and otherwise silence, and that it names the client and the address it holds |
| `LeaseServer.RequestChanges` | dhcp/package/dhcpserverack.cc:65-105 | without ACK no lease changes; an ACK grants a lease to a new client or makes the client's own lease valid, restarted by a renewal, and changes nothing else |
| `LeaseServer.OfferExactly` | dhcp/package/dhcpserveroffer.cc:51-83 | DISCOVER offers the client's own address, else the wanted one if free, else the first free one of the list, else nothing, and what each changes |
| `LeaseServer.ReleaseExactly` | dhcp/package/dhcpserverrelease.cc:29-48 | a release addressed to this server frees the client's address and puts it last in the list; any other changes nothing |
| `LeaseServer.ReplyHolds` | dhcp/package/dhcpserverack.cc:48-123 | a client that was offered or acknowledged an address holds it until it releases it |
| `LeaseServer.OfferIsHonoured` | dhcp/package/dhcpserverack.cc:76-80 | over every run, an offered or acknowledged address requested with a server identifier before any release of that client is acknowledged, and the lease is then valid |
| `LeaseServer.RenewalIsHonoured` | dhcp/package/dhcpserverack.cc:99-105 | so is a renewal, and the lease then starts anew |
| `LeaseServer.Server.LookupIp` | dhcp/package/leasetable.cc:64-71 | a lease found by address is the one its client holds; none is found exactly when no client holds the address |
| `LeaseServer.Server.LookupEth` | dhcp/package/leasetable.cc:55-62 | a lease found by client is the one recorded for its address; none is found exactly when no address is leased to the client |
| `LeaseServer.Server.InsertLease` | dhcp/package/leasetable.cc:83-90 | leasing a free address to a client without one keeps the invariant, both lookups find the lease, every other client keeps its own |
| `LeaseServer.Server.MakeLease` | dhcp/package/leasepool.cc:63-81 | keeps the invariant and every lease; refused if and only if the client had none and the address is not free |
| `LeaseServer.Server.MakeLeaseAny` | dhcp/package/leasepool.cc:46-61 | the allocation loop over the free list |
| `LeaseServer.Server.RemoveLease` | dhcp/package/leasepool.cc:89-96 | maps, free table and free list after a removal |
| `LeaseServer.Server.HandleDiscover` | dhcp/package/dhcpserveroffer.cc:51-83 | the DISCOVER step, which OfferExactly describes |
| `LeaseServer.Server.HandleRequest` | dhcp/package/dhcpserverack.cc:48-123 | the four REQUEST cases, which AckExactly, NakExactly and RequestChanges describe |
| `LeaseServer.Server.HandleRelease` | dhcp/package/dhcpserverrelease.cc:29-48 | the RELEASE step, which ReleaseExactly describes |
| `DHCPOptions.ParseReads` | dhcp/package/dhcpoptionutil.cc:33-47 | the reference list of an area is what a sender wrote: its options in order, code, length and data, whatever pads lie between |
| `DHCPOptions.SearchFollows` | dhcp/package/dhcpoptionutil.cc:9-61 | what one call returns is the head of the occurrences still ahead, and it leaves the state in which the rest is ahead |
| `DHCPOptions.ScanFollows` | dhcp/package/dhcpoptionutil.cc:33-47 | one area scan finds the first match of the parsed options, or the first effective overload option |
| `DHCPOptions.ScanArea` | dhcp/package/dhcpoptionutil.cc:33-47 | the scan loop computes the scan |
| `DHCPOptions.FetchNextOption` | dhcp/package/dhcpoptionutil.cc:9-61 | the retry loop over options, file and sname |
| `DHCPOptions.FetchAll` | dhcp/package/dhcpoptionutil.cc:9-61 | iterating terminates and returns exactly the matching options of the parsed areas, in order, each once |
| `DHCPOptions.Fetch` | dhcp/package/dhcpoptionutil.cc:63-68 | for every option code: the contents of the first occurrence if and only if there is one of the expected length |
| `SequenceShift.WindowOrder` | ip6_natpt/package/tcpaddresstranslator.hh:237-241 | within 2^31 the wire comparisons decide the order of stream positions |
| `SequenceShift.AcceptedExactly` | ip6_natpt/package/tcpaddresstranslator.cc:43-57 | an edit is accepted if and only if it lies beyond the last one or all fields are zero |
| `SequenceShift.UpdateTracks` | ip6_natpt/package/tcpaddresstranslator.cc:43-57 | the mapping follows the accepted edits if and only if it is not the all-zero case with an edit that is not beyond |
| `SequenceShift.LooksFreshOnly` | ip6_natpt/package/tcpaddresstranslator.cc:43-57 | which edits leave a mapping that looks new |
| `SequenceShift.RetransmitsCountOnce` | ip6_natpt/package/tcpaddresstranslator.cc:43-57 | in a run of new edits and retransmissions the accepted ones are all edits, each once |
| `SequenceShift.DeltaIsSum` | ip6_natpt/package/tcpaddresstranslator.hh:237-241 | after every run inside the window, the delta at s is the sum of the accepted length changes at or before s, for s from the previous trigger on |
| `SequenceShift.TracksExactly` | ip6_natpt/package/tcpaddresstranslator.cc:43-57 | for every run of edits inside the window, the mapping follows the accepted edits after every prefix if and only if no edit is taken for a first one |
| `SequenceShift.Contiguous` | ip6_natpt/package/tcpaddresstranslator.cc:263-274 | a translated segment, grown by its edits, ends where the next translated segment begins |
| `SequenceShift.AckReturnsExactly` | ip6_natpt/package/tcpaddresstranslator.cc:276-283 | an acknowledgement of s comes back as s if and only if s and its translation lie on one side of the last trigger, or the last edit changed nothing |
| `SequenceShift.AckComesBackWrong` | ip6_natpt/package/tcpaddresstranslator.cc:276-283 | a shortening edit after which an acknowledgement comes back too small |
| `SequenceShift.CountedTwice` | ip6_natpt/package/tcpaddresstranslator.cc:47-48 | a run in which a retransmission is counted twice |
| `TCPChecksum.VerifiesExactly` | ip6_natpt/package/tcpaddresstranslator.cc:285-288 | a ones' complement sum verifies if and only if the plain sum is a positive multiple of 65535 |
| `TCPChecksum.Fold2Means` | ip6_natpt/package/tcpaddresstranslator.cc:285-288 | two folds are enough for every sum `apply` can build |
| `TCPChecksum.ChecksumExactly` | ip6_natpt/package/tcpaddresstranslator.cc:256-288 | a segment that verified before the rewrite verifies after it if and only if the mapping's own delta is 0 or 0xFFFF |
| `TCPChecksum.InitialDeltaMeans` | ip6_natpt/package/tcpaddresstranslator.cc:347-376 | the mapping's own delta is the difference of the six words modulo 65535 |
| `TCPChecksum.SameFlowDelta` | ip6_natpt/package/tcpaddresstranslator.cc:436-445 | for equal flows that delta is 0xFFFF |
| `TCPAddressTranslator.Mapping.UpdateSeqnoDelta` | ip6_natpt/package/tcpaddresstranslator.cc:43-57 | a mapping that tracks accepted edits tracks them with this one if and only if the edit does not confuse it |
| `TCPAddressTranslator.Mapping.DeltaFor` | ip6_natpt/package/tcpaddresstranslator.hh:237-241 | for a mapping that tracks accepted edits, the sum of their length changes at or before the position |
| `TCPAddressTranslator.Mapping.Initialize` | ip6_natpt/package/tcpaddresstranslator.cc:347-376 | all fields of a new mapping; its two deltas are the differences of four and of six words modulo 65535 |
| `TCPAddressTranslator.Mapping.Apply` | ip6_natpt/package/tcpaddresstranslator.cc:256-298 | translated numbers, a checksum that still verifies whatever the other words are, and session flags |
| `TCPAddressTranslator.ReverseFlowSwaps` | ip6_natpt/package/tcpaddresstranslator.cc:378-385 | the reverse flow has source and destination address and the two ports exchanged, and reversing it gives the flow back |
| `TCPAddressTranslator.MakePair` | ip6_natpt/package/tcpaddresstranslator.cc:378-385 | the two mappings point at each other, each with the delta between the flows it rewrites; for equal flows checksums stay valid |
| `DNSCodec.HeaderRoundTrip` | ip6_natpt/package/dnsmessage.cc:25-189 | every header comes back, whatever follows it |
| `DNSCodec.HeaderLayout` | ip6_natpt/package/dnsmessage.cc:25-60 | which octets and bits of the header hold which field (section 4.1.1 of RFC 1035) |
| `DNSCodec.Tokens` | ip6_natpt/package/dnsmessage.cc:95-110 | tokens are never empty and hold no separator |
| `DNSCodec.NameComesBack` | ip6_natpt/package/dnsmessage.cc:206-261 | a packed name is returned, ending behind it, if and only if it fits the name buffer, whatever the size of the buffer |
| `DNSCodec.CompressedComesBack` | ip6_natpt/package/dnsmessage.cc:206-261 | a name spelled through any chain of compression pointers is its labels joined by dots, ending behind the first pointer, returned if and only if it fits the name buffer, with one more byte where a pointer leads to the terminator alone |
| `DNSCodec.QueryRoundTrip` | ip6_natpt/package/dnsmessage.cc:650-679 | for every accepted host name and every name buffer: a built query gives back id, type and class, and the name up to the packed length if and only if it is not empty and fits |
| `DNSCodec.TokensOfJoined` | ip6_natpt/package/dnsmessage.cc:95-110 | proper labels joined by dots are split into the same labels |
| `DNSCodec.ProperNamesUnchanged` | ip6_natpt/package/dnsmessage.cc:95-110 | a name of proper labels is carried unchanged |
| `DNSMessage.HeaderPack` | ip6_natpt/package/dnsmessage.cc:25-60 | twelve octets are written in place and nothing else |
| `DNSMessage.LabelPack` | ip6_natpt/package/dnsmessage.cc:70-85 | a label, cut to 63 octets, is written in place |
| `DNSMessage.NextToken` | ip6_natpt/package/dnsmessage.cc:95-110 | one call of strtok yields the next label still to be packed |
| `DNSMessage.NamePack` | ip6_natpt/package/dnsmessage.cc:95-110 | all labels and the terminator are written in place |
| `DNSMessage.QuestionPack` | ip6_natpt/package/dnsmessage.cc:118-132 | name, type and class are written in place |
| `DNSMessage.HeaderUnpack` | ip6_natpt/package/dnsmessage.cc:145-189 | every packed header is recovered whatever follows it; only a message shorter than a header is refused |
| `DNSMessage.NameUnpack` | ip6_natpt/package/dnsmessage.cc:206-261 | the unpacking loop with its recursion on compression pointers, which NameComesBack and CompressedComesBack describe |
| `DNSMessage.Resolver.Qid` | ip6_natpt/package/dnsmessage.cc:407-414 | each identifier is the successor of the one before in the cycle 1..0xFFFE, and never 0xFFFF |
| `DNSMessage.QidsRepeatExactly` | ip6_natpt/package/dnsmessage.cc:407-414 | two identifiers of a run are equal if and only if a multiple of 0xFFFE draws lies between them |
| `DNSMessage.Resolver.BuildQuery` | ip6_natpt/package/dnsmessage.cc:752-787 | refused names change nothing; otherwise the buffer holds a message that reads back as the id, type and name; an id is drawn exactly if none is given |
| `DNSMessage.Resolver.BuildAQuery` | ip6_natpt/package/dnsmessage.cc:752-787 | the message reads back as a query of type A for the name, under the given id |
| `DNSMessage.Resolver.BuildAAAAQuery` | ip6_natpt/package/dnsmessage.cc:650-679 | the same for type AAAA |
| `DNSReverse.ReverseRoundTrip` | ip6_natpt/package/dnsalg.cc:754-785 | extracting the address of a reverse name gives the zero-padded groups joined by colons |
| `DNSReverse.BodyAt` | ip6_natpt/package/dnsmessage.cc:928-979 | the m-th digit of the name is the m-th digit of the padded address from its end, and a dot follows it (section 2.5 of RFC 1886) |
| `DNSReverse.BuildPTR6Domain` | ip6_natpt/package/dnsmessage.cc:928-979 | the reversed, dotted, zero-padded digits followed by ip6.int |
| `DNSReverse.GetQueryIPv6Address` | ip6_natpt/package/dnsalg.cc:754-785 | what is extracted into a zeroed buffer and its length; 0 without the suffix |
| `DNSReverse.ThereAndBack` | ip6_natpt/package/dnsalg.cc:754-785 | for every address of one to eight groups the extraction after the construction gives the zero-padded address |

## Left out

- Click plumbing: element configuration strings, handlers, packet headroom, annotations, OML reporting.
- Address colours: colour numbers are unbounded here and the radix tree behind `find_node` is a map; writing and reading colour files and `compress_colors`, which guesses colours from address distance, are not modelled.
- PPPEndpoint.RunFollowsTable: packets of a foreign protocol are not events of the table; StepDrawsOneId says what they change.
- PPP: option rewriting in lcp.cc and ipcp.cc; the verdict of `reqci` is an arbitrary input.
- SNMPOidTree.OidTree.AllocNode: every node is a separate object; the growth of node groups, which stores into the old array, is not modelled.
- SNMPBER.BalancedRunDecodes: for runs in which no sequence outgrows its reserved length octets; PopSequence, PopsProperlyExactly and ShiftExact say what happens otherwise.
- RC5: key expansion; the theorems hold for every key array.
- MapTRW: the ARP path, the connection table (its bits are inputs of a packet) and broadcast suppression.
- PriorityQueue: throughput measurement and its timer; paint 255, which lies outside the code's tables.
- Geometry.Configure: reports the sizes for which the C code would divide by zero, shift by 32 or never end, and does not model what it does then.
- Flood: metrics, link-table contents and ARP; clearing the seen list by handler; duplication of a frame by the radio.
- FloodNetwork.FloodIsFinite: sequence numbers are unbounded.
- LeasePool: a range that ends at 255.255.255.255, for which the fill loop never ends; lease expiry, packet builders and the DHCP client; LeaseHash, which accepts hash collisions by design.
- LeaseServer.Server.HandleRelease: for messages that carry a server identifier; the code reads through a null pointer without one.
- DHCPOptions.FetchNextOption: bodies of 232 to 239 bytes, which pass the length test because it counts the UDP header and are then read past their end.
- DHCPOptions.FetchAll: not for option 52 itself, whose iteration does not update the overload state; Fetch covers its first occurrence.
- SequenceShift.Run: edits lie within 2^31 of the last accepted one, as the wire comparison demands.
- TCPAddressTranslator.Mapping.Apply: packets of the IPv4 side; the IPv6 side differs by the `_used` special case for acknowledgements. Garbage collection and free lists are not modelled.
- DNSMessage.NameUnpack: the number of compression pointers followed is bounded by a parameter, and every bound is allowed; the code has none. One outcome stands for failed assertions and for leaving a buffer.
- DNSReverse.BuildPTR6Domain: for strings whose digits fit the 82-byte buffer; the code writes in front of it for longer ones.
- DNS answers, resource records, PTR queries over IPv4 and FTP port mapping.
- netflow, multicast, roofnet, GRE, wifi encapsulation, data-queue metrics and flow calculation: thin header edits, list scans, lookup tables or floating-point measurements that would only add easy members.

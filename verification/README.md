# Verified model of ospfd

ospfd is a routing daemon that speaks OSPFv2 (RFC 2328) and OSPFv3 (RFC 5340). This project models
the parts of it whose correctness is hard to see from the code and proves what they promise. All
statements are for every input, every run or every reachable state.

| module | what it models |
|---|---|
| `Numbers`, `LsaTypes`, `OspfV3Types` | machine integers, the LSA data types, the recency order of section 13.1 of RFC 2328 |
| `Fletcher`, `InternetChecksum` | the LSA checksum with its wrapping i32 accumulators, the packet checksum computed in place |
| `LsaCodec`, `LsaLayout` | the wire format of LSAs and Link State Updates, and where each field is |
| `LinkStateDatabase`, `Instance`, `LsuProcessing` | the OSPFv2 database and the LSU processing of one router, and what it amounts to packet by packet |
| `Flooding`, `FloodingTermination` | a network of such routers: agreement and termination of flooding |
| `ExternalReconciliation` | our own Type 5 LSAs against the redistributed prefixes |
| `SpfThrottle` | the hold-down between SPF runs |
| `Election`, `Segment` | DR/BDR election on one view, and a whole segment in synchronous rounds |
| `Adjacency`, `DatabaseExchange`, `ExchangeSequence`, `ExchangeCompletion` | the Database Description exchange of one neighbor, and of two routers over FIFO channels |
| `StaleNeighbors`, `OneWayEvents` | the same exchange when a neighbor dropped out of 2-Way and comes back with leftovers, and with 1-Way Hellos at any moment |
| `LsdbV3`, `Loading`, `SpfGate` | the OSPFv3 database, loading of adjacencies, the gate that skips SPF |
| `ShortestPaths`, `SpfRoutes` | OSPFv3 SPF: Dijkstra with a lazy-deletion heap, then the route passes |

Code that updates objects or runs loops is modelled by classes and methods with loops, each proved
equal to a function of its inputs or of the old state; the theorems are about those functions and about
state machines built from them. What each such function means is stated a second time without it, in the words
of its inputs (the members whose names end in `Meaning`, and others).

## Main results

- Flooding: once no LSU is in flight, all routers of a connected area hold the same instance of every
  settled key that the area carries, one that no originated instance outranks (a key is settled unless a
  router changed its instance on its own and nothing above all instances was originated since); and from any state the number of
  deliveries is bounded by an explicit budget, whatever the order of delivery.
- Election: the winners are the highest (priority, id) of their kind; the second pass never changes the DR; on a segment one round fixes the DR, two fix the BDR,
  and then nothing moves.
- Database exchange: a side leaves Exchange only with the peer's full header list, its own list sent,
  the right role and exactly the right requests, also when repeated opening packets restart the slave; the
  master's sequence numbers count what it took in, the slave's repeat what it received;
  and no run is stuck: each can be continued until both sides have left. For neighbors that come back
  from 1-Way with leftovers, and for 1-Way Hellos at any moment, the exact conditions under which every
  run is still correct.
- SPF: the loop ends, distances equal min(u32 maximum, cheapest path), nodes without next hops are our own
  networks or lie behind a router that is not Full. The next hops of all equal-cost paths are found as long as
  edges without cost do not delay them. Next hops belong to the first router of a cheapest path
  in sheltered areas and not in misled ones, whatever the order of expansion; in areas where networks tied
  between paths over Full and other routers are reached steadily, that is an exact condition.
- Checksums and codecs: exact conditions for the Fletcher and Internet checksums, round trips for LSAs
  and LSUs.

## Where the code differs from what is promised

- `Fletcher16` accumulates in i32. The sealed data verifies if and only if the second accumulator
  stays within i32; for arbitrary data and offsets that is guaranteed up to 4103 bytes and fails at 4104.
  Encoded LSAs, whose type and length bytes are small, verify up to 4110 bytes; a Network-LSA of 4112
  bytes, the next possible length, does not, although the length field admits 65535.
- Restart recovery holds if and only if the sequence number held when the LSA is originated again is
  below the maximum; a peer that floods our own LSA at the maximum defeats it.
- Type 5 reconciliation holds if and only if no LSA that has to be withdrawn or revived sits at the
  maximum sequence number; there the next number wraps and the database refuses it. A neighbor that
  sends us our own LSA at the maximum brings this about.
- A Type 5 LSA originated in a stub area never leaves its originator, so agreement is about the keys
  the area carries. The newer copy that answers an older LSA is looked up in the area database only, so
  there is no such answer for Type 5; agreement does not need it.
- Leaving 2-Way does not clear `dd_summary_recv` and `dd_peer_done`. With nothing in flight, the next
  exchange is bound to be correct if and only if the leftovers are among the headers the peer describes
  and a side that takes the peer for done already holds them all (the master counting the slave's first
  chunk). So an adjacency that was complete, flapped and comes back can go Full without the headers that
  were added to the peer's database meanwhile.
- A 1-Way Hello while chunks are in flight loses headers even if the databases do not change: the master
  drops chunks in Init, and in the negotiation it reopens, with a sequence number that repeats because the
  clock it comes from always shows 1, takes a later one for a complete exchange. Every run is
  safe from that if and only if the slave has nothing to describe; the slave itself is always safe.
- SPF resolves next hops with Full neighbors only, and takes any network without next hops for one of
  ours. A network that is best reached through a router that is not Full then hands the next hop of our
  own, more expensive, link to a neighbor attached to it, and a wrong route comes out in every order of
  expansion.
- Withdrawing a Type 5 LSA installs its MaxAge successor and floods nothing, so afterwards the originator
  disagrees with everyone else, with nothing in flight, until the LSA is originated again with a number above
  all instances. The same goes for the bump after a restart.
- The end of a Database Description exchange compares headers without their scope. In a router with several
  areas an LSA of another area hides one that is missing, and the neighbor goes Full without it; exactly the
  headers hidden in this way are lost.

## Model

| member | source | states |
|---|---|---|
| `LsaTypes.RecencyIsStrictOrder` | src/packet/lsa.rs:145-180 | swapping the arguments reverses the verdict, "newer" is transitive and refines the (sequence, checksum) rank, equal verdicts mean the same instance, and among equal instances MaxAge wins, else the younger by more than 900 seconds |
| `LsaTypes.EqualIsNotTransitive` | src/packet/lsa.rs:166-176 | the age tie-break is not an equivalence: ages 0, 900 and 1800 |
| `Fletcher.Accumulate` | src/packet/checksum.rs:47-61 | the loop leaves the two Fletcher sums of the data with the checksum bytes read as zero, wrapped to i32 |
| `Fletcher.Fletcher16` | src/packet/checksum.rs:46-84 | the pair computed from the wrapped sums |
| `Fletcher.Fletcher16Verify` | src/packet/checksum.rs:90-100 | true exactly when both sums vanish modulo 255, although reduced at every byte |
| `Fletcher.SealedVerifiesIffFits` | src/packet/checksum.rs:46-100 | up to 65535 bytes and for every offset, the sealed data verifies if and only if the second accumulator fits i32 |
| `Fletcher.SealedVerifies` | src/packet/checksum.rs:46-100 | up to 4103 bytes the sealed data always verifies |
| `Fletcher.LongestSafeIsTight` | src/packet/checksum.rs:48-58 | 4104 bytes of 0xFF with the field at the end are sealed with a pair that does not verify |
| `Fletcher.GeneratedBytesNonZero` | src/packet/checksum.rs:69-84 | neither check byte is zero |
| `Fletcher.SingleByteChangeDetected` | src/packet/checksum.rs:90-100 | replacing one byte of verifying data goes unnoticed only for 0x00 against 0xFF |
| `InternetChecksum.SumWords` | src/packet/checksum.rs:10-22 | the word loop computes the 16-bit word sum, a trailing byte counting as a high byte, in a wrapping u32 |
| `InternetChecksum.IpChecksum` | src/packet/checksum.rs:9-30 | the complement of the folded word sum |
| `InternetChecksum.FoldedCongruent` | src/packet/checksum.rs:24-27 | folding ends, keeps the sum modulo 65535 and never makes a non-zero sum zero |
| `InternetChecksum.SetOspfChecksum` | src/packet/mod.rs:160-179 | in place: only the checksum field changes, to the checksum of the packet without field and authentication |
| `InternetChecksum.VerifyOspfChecksum` | src/packet/mod.rs:182-190 | accepts exactly what `AcceptsIff` and `SealedAccepted` speak of; short packets are refused |
| `InternetChecksum.AcceptsIff` | src/packet/mod.rs:182-190 | accepted fields are those congruent to the generated one modulo 65535, and the all-zero packet is not accepted |
| `InternetChecksum.SealedAccepted` | src/packet/mod.rs:160-190 | a packet with its checksum set is accepted, whatever the authentication bytes become |
| `InternetChecksum.SealedMeaning` | src/packet/mod.rs:160-179 | the checksum is in bytes 12 and 13, over all bytes but those and 16 to 23; nothing else changes, short packets not at all |
| `InternetChecksum.AcceptsMeaning` | src/packet/mod.rs:182-190 | accepted: at least 24 bytes, and checksum zero without bytes 16 to 23 |
| `InternetChecksum.ChecksumMeaning` | src/packet/checksum.rs:9-30 | the complement of a 16-bit number congruent to the word sum modulo 65535 and zero only with it |
| `InternetChecksum.WordStep` | src/packet/checksum.rs:13-17 | two bytes add a word, most significant byte first |
| `InternetChecksum.WordTail` | src/packet/checksum.rs:18-22 | a trailing byte is a high byte |
| `LsaCodec.ParseEncodedHeader` | src/packet/lsa.rs:95-134 | a header followed by anything is read back as written |
| `LsaCodec.ParseEncodedBody` | src/packet/lsa.rs:264-473 | every body the encoder can represent is read back unchanged |
| `LsaCodec.ParseEncodedLsa` | src/packet/lsa.rs:494-555 | parsing an encoded LSA followed by anything returns it with corrected length and checksum |
| `LsaCodec.ReencodeIdentical` | src/packet/lsa.rs:523-555 | re-encoding the parsed LSA gives the same bytes |
| `LsaCodec.EncodedLsaVerifies` | src/packet/lsa.rs:546-552 | encoded LSAs verify from byte 2 exactly when the accumulator fits, always up to 4110 bytes |
| `LsaCodec.LongNetworkLsaFails` | src/packet/lsa.rs:546-552 | an encodable Network-LSA of 4112 bytes gets a checksum that does not verify |
| `LsaCodec.EncodingAligned` | src/packet/lsa.rs:304-471 | encodable LSAs have lengths divisible by 4, so no length lies between the two |
| `LsaCodec.ParseEncodedLsu` | src/packet/lsu.rs:15-47 | round trip of a whole Link State Update |
| `LsaCodec.ReencodeLsasIdentical` | src/packet/lsu.rs:42-47 | the parsed update encodes to the same bytes |
| `LsaCodec.ParseLinkList` | src/packet/lsa.rs:285-299 | the link loop, with its early stop and its skip over announced TOS entries |
| `LsaCodec.ParseRouterLsa` | src/packet/lsa.rs:264-302 | the Router-LSA body parser |
| `LsaCodec.ParseNetworkLsa` | src/packet/lsa.rs:325-348 | the Network-LSA body parser |
| `LsaCodec.ParseLsaList` | src/packet/lsu.rs:29-37 | the LSA loop, stopping early when the bytes run out |
| `LsaCodec.ParseLsUpdate` | src/packet/lsu.rs:15-40 | the Link State Update parser |
| `LsaCodec.AppendBody` | src/packet/lsa.rs:304-471 | the body encoders append exactly the body bytes |
| `LsaCodec.EncodeLsaBuffer` | src/packet/lsa.rs:523-555 | append, patch the length, write the Fletcher pair |
| `LsaCodec.EncodeLsUpdate` | src/packet/lsu.rs:42-47 | the count followed by the encoded LSAs |
| `LsaLayout.HeaderLayout` | src/packet/lsa.rs:95-134 | position and width of every header field |
| `LsaLayout.RouterLayout` | src/packet/lsa.rs:215-316 | flags, zero byte, number of links, then 12 bytes per link with their fields |
| `LsaLayout.NetworkLayout` | src/packet/lsa.rs:325-357 | mask, then the attached routers |
| `LsaLayout.SummaryLayout` | src/packet/lsa.rs:444-471 | mask, zero byte, 24-bit metric |
| `LsaLayout.ExternalLayout` | src/packet/lsa.rs:392-436 | mask, E bit, 24-bit metric, forwarding address, tag |
| `LsaLayout.LsaBytes` | src/packet/lsa.rs:523-555 | header, check bytes, true length, body |
| `LsaLayout.LsuLayout` | src/packet/lsu.rs:42-47 | the number of LSAs, then the LSAs |
| `LinkStateDatabase.Lsdb.Install` | src/lsdb.rs:123-170 | the new entries and the verdict; an older or equal instance changes nothing |
| `LinkStateDatabase.Lsdb.BumpSeq` | src/lsdb.rs:73-81 | only a held, lower sequence number is lifted |
| `LinkStateDatabase.Lsdb.OriginateRouterLsa` | src/lsdb.rs:219-267 | the next instance as its own bytes parse, with length and checksum filled in, installed and returned: age, options, ids and number spelled out, and the links and flags given; links that announce TOS entries included unless the source panics |
| `LinkStateDatabase.InstallMonotone` | src/lsdb.rs:123-170 | what is held never goes down in rank and covers what was offered |
| `LinkStateDatabase.RecoveredCovers` | src/instance.rs:367-390 | after a Database Description our sequence numbers are at least the listed ones |
| `LinkStateDatabase.RestartRecovery` | src/instance.rs:358-390 | after any further installs the next origination exceeds the listed sequence if and only if the held one is below the maximum; it then replaces our copy and a peer's listed copy as Updated |
| `LinkStateDatabase.HeldBelowMaximum` | src/lsdb.rs:230-234 | the condition is met when no instance involved is at the maximum |
| `LinkStateDatabase.RecoveryFailsAtMaximum` | src/lsdb.rs:230-234 | a later instance of ours at the maximum makes the next number fall below the listed one |
| `Instance.OspfInstance.InstallOne` | src/instance.rs:744-754 | Type 5 LSAs go to the AS-wide database, all others to the area database |
| `Instance.OspfInstance.ProcessLsu` | src/instance.rs:711-866 | new databases, replies, acknowledgment, floods and SPF request of a whole LSU |
| `Instance.OspfInstance.FloodLsasToOthers` | src/instance.rs:909-976 | one LSU per interface that is up, is not the input and has an eligible neighbor other than the sender |
| `Instance.OspfInstance.FilterAdmitted` | src/instance.rs:949-955 | Type 5 LSAs are filtered out for stub areas |
| `Instance.OspfInstance.RecoverSelfLsas` | src/instance.rs:367-412 | the listed headers of ours lift the sequence numbers in the database of their type to the highest listed one and change nothing else; SPF is asked for exactly when a database changed |
| `LsuProcessing.StoreStep` | src/instance.rs:744-754 | LSA by LSA: a new or newer one replaces what its database held, marked as ours or not; any other changes nothing |
| `LsuProcessing.LsuMeaning` | src/instance.rs:711-866 | the packets of an LSU in order: a reply on the input interface for each older LSA, one acknowledgment there listing exactly the new, newer and duplicate ones, and the changed ones on each interface that is to receive them; when SPF is asked for |
| `LsuProcessing.FloodsInOrder` | src/instance.rs:917-976 | one LSU on each interface that is up, is not the input and has another neighbor in Exchange, Loading or Full |
| `LsuProcessing.AdmittedInOrder` | src/instance.rs:949-955 | all LSAs in order, without Type 5 LSAs in a stub area |
| `Flooding.ReceiveEffect` | src/instance.rs:732-846 | receiving covers every carried LSA, loses no rank, and changes a key only to an LSA it will flood |
| `Flooding.ReceiveAnswers` | src/instance.rs:757-845 | every carried LSA is acknowledged or, if older, answered with our newer copy; no other acknowledgments or answers; SPF asked for exactly on Router, Network and Summary-Network changes |
| `Flooding.FloodOutMember` | src/instance.rs:909-976 | floods go exactly to the interfaces that qualify and carry exactly the admitted LSAs |
| `Flooding.FloodReaches` | src/instance.rs:909-976 | in the network, flooding reaches every neighbor but the one the LSAs came from |
| `Flooding.DeliverKeepsInv` | src/instance.rs:711-866 | every delivery keeps: senders hold what they sent; across each link the far end holds or is sent at least what the near end holds; only originated LSAs exist |
| `Flooding.OriginateKeepsInv` | src/instance.rs:2213-2218 | originate-then-flood keeps the same invariant whatever installing returned |
| `Flooding.FloodingAgreement` | src/instance.rs:711-976 | in every run of a connected area with nothing in flight, all routers hold the same (sequence, checksum) for every carried key that was not withdrawn or bumped locally, or was originated above all instances since; what they hold was originated and is not outranked by any origination |
| `Flooding.WithdrawKeepsInv` | src/instance.rs:1800-1835 | a withdrawal, installed and not flooded, keeps the invariant for all other keys |
| `Flooding.BumpKeepsInv` | src/lsdb.rs:73-81 | so does the restart bump |
| `Flooding.WithdrawalDiverges` | src/instance.rs:1800-1835 | in any network at rest, withdrawing a Type 5 LSA below the maximum makes its originator disagree with every other router, with nothing in flight |
| `Flooding.RenewKeepsInv` | src/instance.rs:2213-2218 | an origination above everything held and in flight takes the key up again: the invariant holds for it from that instance upwards |
| `Flooding.RenewalSettles` | src/instance.rs:1741-1790 | after such a withdrawal, the next origination numbered above what the originator holds settles the key |
| `Flooding.UncarriedKeysDiverge` | src/instance.rs:733-740 | in a stub area a Type 5 LSA stays with its originator, so the condition on the key is needed |
| `FloodingTermination.InstallShrinksBetter` | src/lsdb.rs:123-170 | each installation leaves strictly fewer LSAs that could still be installed |
| `FloodingTermination.ReplyIsLighter` | src/instance.rs:819-844 | the copy sent back weighs less than the LSA that asked for it |
| `FloodingTermination.DeliverSpends` | src/instance.rs:711-976 | every delivery lowers the budget |
| `FloodingTermination.FloodingTerminates` | src/instance.rs:711-976 | without originations at most `Budget` LSUs are delivered, from any state and in any order |
| `ExternalReconciliation.FlushSelfExternalsOutside` | src/instance.rs:1800-1835 | every live LSA of ours outside the keep list is replaced by its MaxAge successor where the database accepts it, nothing else changes |
| `ExternalReconciliation.OriginateKept` | src/instance.rs:1741-1790 | the origination loop over the kept prefixes: the new database and the LSAs handed back |
| `ExternalReconciliation.InstancesMeaning` | src/instance.rs:1743-1790 | one new instance per kept prefix, age 0, next sequence number, the asked-for body; the last one for an address is the one the database holds, exactly if the number before it was below the maximum |
| `ExternalReconciliation.FilterKept` | src/instance.rs:1696-1725 | summary suppression and route-map |
| `ExternalReconciliation.KeptSnoc` | src/instance.rs:1696-1725 | prefix by prefix: kept at its place exactly if outside every summary range, by its leading bits, and permitted by the route-map |
| `ExternalReconciliation.ExpectedMeans` | src/instance.rs:1727-1739 | the ids that should be live: permitted prefixes, and default route and summaries that are live already |
| `ExternalReconciliation.OriginateExternalLsas` | src/instance.rs:1657-1793 | the whole call, including missing rules and unknown route-maps, and the LSAs to flood |
| `ExternalReconciliation.ReconciledAt` | src/instance.rs:1657-1835 | per id: live exactly as it should be unless stuck; withdrawn ids end at MaxAge with a higher sequence number |
| `ExternalReconciliation.ReconciliationExact` | src/instance.rs:1657-1835 | the advertised ids are exactly the kept prefixes and the already live summary and default ids, if and only if nothing is stuck at the maximum |
| `ExternalReconciliation.WithdrawalExact` | src/instance.rs:1663-1671 | without a rule all our LSAs are withdrawn except those at the maximum |
| `ExternalReconciliation.OthersUntouched` | src/instance.rs:1803-1810 | LSAs of other routers are left alone |
| `ExternalReconciliation.RunValid` | src/instance.rs:1657-1835 | over any sequence of calls and received LSAs the database holds only Type 5 LSAs under their own keys |
| `ExternalReconciliation.EveryCallReconciles` | src/instance.rs:1657-1835 | over any such run: the exact set if and only if nothing is stuck, and withdrawn ids end at MaxAge with a higher sequence number if and only if they were below the maximum |
| `ExternalReconciliation.StuckRun` | src/instance.rs:1800-1835 | receiving our own live LSA at the maximum and then not keeping it leaves its id advertised |
| `SpfThrottle.SpfScheduler.ScheduleSpf` | src/instance.rs:1999-2031 | the new schedule and multiplier |
| `SpfThrottle.SpfScheduler.RunSpf` | src/instance.rs:2043-2045 | the schedule is cleared and the run remembered |
| `SpfThrottle.RunsAreSpaced` | src/instance.rs:1999-2045 | any two due-driven runs are at least min(holdtime, maximum) apart |
| `SpfThrottle.RequestIsServed` | src/instance.rs:1999-2031 | a request at t leaves a run due by t + max(delay, maximum), which later requests do not push back |
| `SpfThrottle.BackOff` | src/instance.rs:2003-2014 | a request that comes too soon doubles the hold time up to the maximum, a late one resets it |
| `SpfThrottle.ScheduledAt` | src/instance.rs:1999-2031 | a request is due after the delay, or too soon at the end of the hold time after the last run; a sooner pending run stays; hold time and its growth spelled out |
| `Election.InterfaceV3.CollectCandidates` | src/instance_v3.rs:2545-2563 | the candidates as a set, whatever the order of the neighbor table |
| `Election.MaxBy` | src/instance_v3.rs:2568-2579 | the loop finds the unique best of the filtered candidates |
| `Election.InterfaceV3.RunPass` | src/instance_v3.rs:2543-2614 | one iteration of the election loop |
| `Election.InterfaceV3.DrElection` | src/instance_v3.rs:2526-2661 | the elected roles and interface state depend only on the view |
| `Election.PassMeaning` | src/instance_v3.rs:2565-2614 | a pass elects the best self-declared DR, or promotes the best candidate and re-elects the BDR |
| `Election.RerunKeepsDr` | src/instance_v3.rs:2616-2639 | the second pass never changes the DR |
| `Election.ElectedDr` | src/instance_v3.rs:2526-2639 | on any view the DR is the highest (priority, id) of the eligible self-declared DRs, else the highest (declares itself BDR, priority, id) |
| `Election.ElectedRoles` | src/instance_v3.rs:2526-2639 | the BDR is described by the last pass; DR and BDR are eligible and distinct |
| `Election.IncumbentKept` | src/instance_v3.rs:2616-2622 | a newcomer that does not declare itself DR never displaces a self-declared one |
| `Election.ElectionMeaning` | src/instance_v3.rs:2526-2639 | DR and BDR in the words of the view: highest priority, then id, among the eligible claimants, or among those that claim to be BDR, or among all; when and with which declarations there is a second pass |
| `Segment.FirstRoundAgreesOnDr` | src/instance_v3.rs:2526-2661 | after one round everyone names the same DR |
| `Segment.SettledElection` | src/instance_v3.rs:2616-2639 | once the DR is agreed, every router elects the outcome of the common first pass, also when it runs again |
| `Segment.AgreedIsFixed` | src/instance_v3.rs:2526-2661 | an agreed eligible pair is a fixed point |
| `Segment.Convergence` | src/instance_v3.rs:2526-2661 | from any declarations: DR agreed after one round, BDR after two, nothing changes afterwards |
| `Adjacency.NeighborV3.ReceiveDd` | src/instance_v3.rs:1066-1177 | restart, negotiation and absorption of one Database Description |
| `Adjacency.NeighborV3.BuildDd` | src/instance_v3.rs:2315-2381 | the next chunk of at most 73 headers, with the flags that go with it |
| `Adjacency.NeighborV3.FinishDd` | src/instance_v3.rs:1179-1220 | the request list and the step to Loading or Full |
| `Adjacency.NeighborV3.EmitDd` | src/instance_v3.rs:2281-2308 | emission, ending the exchange after the last chunk once the peer is done |
| `Adjacency.HelloMeaning` | src/instance_v3.rs:2447-2500 | the state after any Hello |
| `Adjacency.DdInExchange` | src/instance_v3.rs:1077-1176 | an opening packet starts over with everything cleared, any other is taken in, and ignored after the exchange |
| `Adjacency.DdBeforeExchange` | src/instance_v3.rs:1101-1176 | who becomes slave or master on which packet, and with which sequence number |
| `Adjacency.PacketMeaning` | src/instance_v3.rs:2315-2381 | flags, number and headers of a packet: as many as fit 1500 bytes |
| `Adjacency.EmissionMeaning` | src/instance_v3.rs:2281-2308 | when the exchange ends, what is requested, and that a request is then due |
| `Adjacency.MissingMember` | src/instance_v3.rs:1184-1198 | requested headers are exactly the needed ones among the received |
| `Adjacency.NeededMeans` | src/instance_v3.rs:1185-1193 | needed means: the header of the same LSA that is found first, if any, has a lower sequence number, whatever its scope |
| `Adjacency.NeededInOneArea` | src/instance_v3.rs:1185-1193 | with one header per LSA, needed means: not held, or held with a lower sequence number |
| `DatabaseExchange.StepKeepsInv` | src/instance_v3.rs:1066-1177 | every 2-way hello, emission and reception keeps the invariant of the exchange, whatever the sides started with |
| `DatabaseExchange.ExchangeCorrect` | src/instance_v3.rs:1066-1220 | from fresh neighbors, a side that has left Exchange has received exactly the peer's headers, sent its own, requests exactly what it needs; the higher id is master |
| `ExchangeSequence.SequenceNumbers` | src/instance_v3.rs:1166-1170 | in every exchange the master's packets carry the negotiated number plus the packets it had taken in, modulo 2^32, and the slave's repeat the last number received |
| `ExchangeCompletion.Progress` | src/instance_v3.rs:2247-2308 | in every reachable unfinished state some hello, emission or reception brings the exchange closer to its end in a well-founded order |
| `ExchangeCompletion.ExchangeCanComplete` | src/instance_v3.rs:1066-1220 | every exchange, also with leftovers, extends to one where both sides have left; fresh ones then hold each other's full header list |
| `StaleNeighbors.HarmlessIsCorrect` | src/instance_v3.rs:1066-1220 | with harmless leftovers every exchange is correct |
| `StaleNeighbors.LeftoversExact` | src/instance_v3.rs:2451-2465 | every exchange from a state with leftovers and empty channels is correct if and only if the leftovers are harmless |
| `StaleNeighbors.FlapExact` | src/instance_v3.rs:2451-2465 | after a completed exchange and 1-Way on both sides, the next exchange is bound to be correct if and only if the new header lists are compatible with the old ones |
| `StaleNeighbors.FlapCanFail` | src/instance_v3.rs:2451-2465 | a run from fresh neighbors over a flap that ends wrong, for any incompatible lists |
| `OneWayEvents.StepKeepsSlaveKnows` | src/instance_v3.rs:1066-1177 | every event, 1-Way Hellos included, keeps: the slave never meets a last chunk before it has the whole list |
| `OneWayEvents.SlaveAlwaysRight` | src/instance_v3.rs:1066-1220 | in every run from fresh neighbors, with any 1-Way Hellos and packets in flight, the slave leaves Exchange only with the master's full list and the right requests |
| `OneWayEvents.MasterCanMiss` | src/instance_v3.rs:1101-1151 | for any non-empty list of the slave, a run with one 1-Way Hello in which the master leaves Exchange having received nothing |
| `OneWayEvents.OneWayExact` | src/instance_v3.rs:2451-2465 | with unchanged databases, all runs with 1-Way Hellos are correct if and only if the slave describes nothing |
| `LsdbV3.Lsdb.Insert` | src/lsdb_v3.rs:59-83 | replaces unconditionally; the generation moves exactly on a new key or another (sequence, checksum) |
| `LsdbV3.NoChangeSameInstances` | src/lsdb_v3.rs:59-83 | inserts that do not move the generation leave the instances alone |
| `SpfGate.DaemonV3.SpfTick` | src/daemon_v3.rs:474-502 | skip, or re-originate, run and remember |
| `SpfGate.SkippedTickIsUpToDate` | src/daemon_v3.rs:474-502 | over any events with fewer than 2^64 changes since the last run, a skipped tick finds the instances that run used; with the neighbor count unchanged and nothing forced it skips exactly when the change count is 0 modulo 2^64 |
| `SpfGate.TickRunsExactly` | src/daemon_v3.rs:474-502 | a tick runs SPF exactly if it never ran, was forced, the number of neighbors changed or the content did |
| `SpfGate.ForceIsRemembered` | src/daemon_v3.rs:474-502 | a forced run is not forgotten before a tick has run |
| `Loading.ProcessLsu` | src/instance_v3.rs:905-978 | what is installed, what leaves the request list, which headers are acknowledged, and when Loading becomes Full and our Router-LSA is to be refreshed |
| `Loading.AcceptedSnoc` | src/instance_v3.rs:917-929 | the accepted LSAs in order: all, but no Type 5 LSAs outside normal areas |
| `Loading.LsuKeepsInv` | src/instance_v3.rs:905-978 | a request disappears only when an instance of its LSA has been installed under its scope |
| `Loading.UpdateInstalls` | src/instance_v3.rs:915-945 | of every key an update mentions the database holds the last instance that arrived, with its bytes and scope, whatever was held before; nothing else changes |
| `Loading.UpdateAnswers` | src/instance_v3.rs:905-978 | exactly the answered requests are crossed off, for each the arrived instance is held, and Loading becomes Full exactly when none is left |
| `Loading.FullMeansLoaded` | src/instance_v3.rs:905-978 | in every reachable state a Full neighbor requests nothing, and everything it described is in the database under its scope except what was lost when its exchange ended; nothing requested was lost |
| `Loading.ExchangeEndExact` | src/instance_v3.rs:1179-1220 | a described header is requested or present under its scope if and only if it is not lost; lost ones are hidden by a header of the same LSA in another scope |
| `Loading.OtherAreaHides` | src/instance_v3.rs:1184-1198 | a run of a router in two areas whose neighbor goes Full without an LSA it described |
| `ShortestPaths.CollectEdges` | src/spf_v3.rs:195-223 | the edges of a node, none without an LSA |
| `ShortestPaths.EdgesMeaning` | src/spf_v3.rs:195-223 | the graph in terms of the links and attached routers of the LSAs |
| `ShortestPaths.RelaxEdge` | src/spf_v3.rs:226-287 | improve and push, merge equal-cost hops, or leave alone |
| `ShortestPaths.RelaxKeepsTree` | src/spf_v3.rs:226-287 | relaxation keeps distances attained, the heap current and expanded nodes final |
| `ShortestPaths.RelaxKeepsHops` | src/spf_v3.rs:234-287 | relaxation out of a final node that is safe to expand keeps next hops leading to their nodes or superseded |
| `ShortestPaths.RelaxKeepsExplained` | src/spf_v3.rs:234-287 | nodes without next hops stay our own networks or behind routers that are not Full |
| `ShortestPaths.MinimumIsFinal` | src/spf_v3.rs:191-194 | the entry taken off the heap has no cheaper path |
| `ShortestPaths.RelaxHandsOver` | src/spf_v3.rs:254-287 | a network without next hops hands the hops of the neighbors attached to it on |
| `ShortestPaths.MisledIsUnsound` | src/spf_v3.rs:179-289 | in a misled area some next hop leads to no cheapest path, whatever the order of expansion |
| `ShortestPaths.MinimumIsFed` | src/spf_v3.rs:191-194 | a node reached steadily, over edges that add to the cost from one of our neighbors or from a node without blind ties, has next hops when it is expanded |
| `ShortestPaths.EqualCostComplete` | src/spf_v3.rs:278-287 | the hops of the first router of every cheapest path whose cost rises at every edge but the first and last are among the next hops |
| `ShortestPaths.UnmixedIsSheltered` | src/spf_v3.rs:179-289 | without ties between the two kinds of paths, other than steady ones, an area that is not misled is sheltered |
| `ShortestPaths.KnownNeighborsShelter` | src/spf_v3.rs:226-270 | an entry for every router on our links and networks shelters all networks and gives every router a next hop |
| `ShortestPaths.BlindNetworkMisleads` | src/spf_v3.rs:254-266 | a small area that is misled: a network behind a router that is not Full, with our neighbor attached |
| `ShortestPaths.Dijkstra` | src/spf_v3.rs:179-289 | ends; distances are exact on the reachable nodes and defined nowhere else; equal-cost next hops are complete but for edges without cost; next hops are sound in sheltered areas, unsound in misled ones, and exactly in those when there are no ties between the two kinds of paths other than steady ones; nodes without any are explained, and routers have some when neighbors are known |
| `SpfRoutes.MatchesMeans` | src/spf_v3.rs:48-63 | a prefix matches when the leading bits agree |
| `SpfRoutes.CalculateSpf` | src/spf_v3.rs:122-440 | the routes are those the passes derive from shortest distances and from next hops that are right in sheltered areas and, without ties, exactly in areas that are not misled |
| `SpfRoutes.MisledRoute` | src/spf_v3.rs:291-322 | in a misled area, every result contains a route to a prefix of the network or of the neighbor attached to it, at the cheapest cost, over a hop with which no path of that cost begins |
| `SpfRoutes.MisleadingRoutes` | src/spf_v3.rs:291-322 | in the small area, such a route to the network or to router 3, at cost 2 plus the prefix metric |
| `SpfRoutes.InternalRoutesAreShortest` | src/spf_v3.rs:291-356 | passes 2 and 3 yield exactly the routes of the resolved advertising nodes, each as cheap as the cheapest path allows |
| `SpfRoutes.FirstMatchLongest` | src/spf_v3.rs:358-366 | the first match in the sorted table is a longest match |
| `SpfRoutes.ExternalRouteMeaning` | src/spf_v3.rs:378-437 | when an external LSA yields a route, over which next hops and at which cost |
| `SpfRoutes.ExternalRoutesMember` | src/spf_v3.rs:378-437 | pass 4 yields exactly those routes |

## Left out

- Sockets, timers, VPP, the control socket, ribd, CLI and configuration files: foreign calls; clock readings and redistributed prefixes are parameters.
- Elapsed ageing of LSAs and the periodic MaxAge purge: entries are live or MaxAge by their stored age.
- OSPFv2 neighbor states, request lists and SPF: the flooding model has all neighbors in Exchange or above, and the originations that follow an adjacency becoming Full are ordinary originations.
- Several areas in one OSPFv2 instance, broadcast links with several neighbors, loss and retransmission of LSUs (the daemon keeps no retransmission list), and acknowledgments in flight, which receivers ignore.
- Recency and network-wide flooding in OSPFv3: the database replaces unconditionally, so the OSPFv2 theorems do not apply there.
- Lost Database Descriptions: the sender drains the next chunk on retransmission and never repeats one.
- The restart bump of our own OSPFv3 LSAs during an exchange: databases are fixed while headers are exchanged.
- 1-Way Hellos with packets in flight and databases that change in between: the first is treated with fixed databases, the second with drained channels.
- Asynchronous election rounds: each round uses what was declared before it.
- Completeness of equal-cost next hops over edges without cost inside a path: such an edge can add hops to a node that was already expanded.
- The OSPFv3 LSA body codecs, inter-area summary origination, authentication and simple fixed-layout headers: they would only add easy members.
- `Fletcher.Fletcher16`: inputs of 2^31 bytes and more are not covered by the theorems, which go up to the 65535 bytes an LSA can have.
- `InternetChecksum.AcceptsIff`: stated up to 131074 bytes, where the u32 word sum cannot overflow; IP packets are shorter.
- `SpfThrottle.SpfScheduler.ScheduleSpf`: assumes that the hold time times 1024 fits a u64, as the shift in the source does.
- `SpfRoutes.CalculateSpf`: takes decoded LSAs; undecodable ones are skipped by the source before this point.
- `ExternalReconciliation.FilterKept`: a route-map is the set of prefixes it permits; its statements are evaluated by another library.
- `Instance.OspfInstance.ProcessLsu`: request lists, the step of a neighbor to Full and the originations that follow it belong to the OSPFv2 neighbor machine, which is not part of this model.
- `Loading.ProcessLsu`: the flooding of the installed LSAs to other Full neighbors is left out; the headers to acknowledge and the refresh mark are returned.
- `ShortestPaths.Dijkstra`: where a network is tied between paths over Full and other routers and not reached steadily, the area may be neither sheltered nor misled; there the order in which equal entries leave the heap can decide, which the source does not fix.

# A verified model of the embedded WireGuard stack and the address scanner

This project models, in Dafny, the parts of warp-plus where the logic is hard to get
right, and proves what those parts are for:

- the **routing table** (`Trie`, `Routing`, `AllowedIPs`, `SlowRouter`, `RoutingRuns`): two
  path-compressed tries of nodes on the heap, rewritten in place through parent indirections,
  with one list of entries per peer. Every operation is proved against a plain map from
  prefixes to peers, and every lookup after every run of insertions and removals against
  longest-prefix match and against the list-based router of the repository's own tests;
- the **packet offload** (`Checksum`, `Gso`, `VirtioRead`, `GroGroups`, `GroState`, `GroWorld`,
  `GroOrder`, `GroRoundTrip`, `Gro`, `GroReordering`, `GroMerging`): the unrolled internet checksum against
  the simple one (RFC 1071, sections 1 and 2), segmentation of large packets, coalescing of a
  batch of packets in place, exactly when packets merge, the round trip of the two, and the
  order of flows;
- the **handshake and sessions** (`Noise`, `Indices`, `Exchanges`, `Device`, `HandshakeRun`,
  `DeviceRuns`, `InitiationRuns`, `ResponseRuns`): several peers that share one index table, the five states of a handshake
  record, the three keypair slots, and any number of devices that exchange messages. Hashes,
  key derivations and sealed boxes are free constructors, and the shared secret of two keys
  does not depend on who computes it;
- the **replay window** (`Replay`), after RFC 6479, against an unbounded set;
- the **send path** (`SendNonce`, `Ownership`, `OwnershipRuns`, `QueueLifetime`): nonces drawn by
  concurrent senders close to 2^64, who owns an element and its buffer and where it may go,
  what Up, Down and Close come to, and when queues close. These
  are state machines whose steps are the parts between two atomic or channel operations;
- **UDP batching** (`UdpBatch`): joining datagrams for the kernel and splitting them again
  within one array;
- the **rate limiter** (`Ratelimiter`, `LimiterRuns`) with its garbage collector, under calls
  one after the other and under calls that overlap, and the **address iterator** (`Lcg`,
  `IpIterator`) with the full-period theorem for its generator, over whole epochs.

`Arith` and `Bitwise` hold integer and bit-level facts, `AddressBits` the bits of addresses,
`Options` a value that may be missing.

## How the model relates to the code

- Machine integers are naturals with their bounds as subset types; wrap-around is written out
  wherever the code could meet it. Bitwise operators are defined one binary digit at a time;
  shifts and masks by a constant power of two are division and remainder.
- Clocks, random draws, results of `Read` and of system calls are parameters. A retry loop
  over random draws takes a sequence of draws, one of which passes.
- Functions that hold a lock throughout are one step; what releases its lock in between, or
  goes from one channel to another, is several. The two functions that consume handshake
  messages are one step each in `Device`; `InitiationRuns` and `ResponseRuns` take them apart,
  and say exactly when that makes a difference. Buffers are sequences of bytes with a capacity; sending and receiving
  are left to the caller.
- Objects the code changes in place are classes: the trie and its nodes, peers, keypairs, the
  index table, the device, the filter, the limiter, the generator, the batch under
  coalescing. Their ghost fields record what they stand for, and validity ties the two.
- Points where the code and its comments or constants disagree, and the code is followed:
  the limiter is meant to allow a burst of five packets, but allows four at one instant
  (`Ratelimiter.FifthNeedsTime`), and more when first calls of an address overlap
  (`LimiterRuns.RunExact`); UDP packets of a flow are meant to be written in order, but are
  not around a packet with which coalescing is not tried (`GroReordering.InOrderExactly`); a
  PSH flag is meant to stay on the last segment of a group, but is lost when a segment is put
  in front later (`GroRoundTrip.FlagsRoundTrip`); an initiation is meant to be accepted once,
  but workers that take it at the same time may both accept it (`InitiationRuns.AcceptedTwice`);
  the
  generator's check is meant to guarantee full period, but does not for ranges of two
  addresses (`Lcg.SizeTwo`).

## Model

| member | source | states |
|---|---|---|
| AddressBits.CommonBits | wireguard/device/allowedips.go:35-56 | The XOR and leading-zero count over 32-bit and 64-bit loads is the length of the longest common prefix of the two addresses' bits. |
| AddressBits.ChosenBit | wireguard/device/allowedips.go:69-71 | Shifting and masking the byte at the recorded position reads exactly the address bit after the node's prefix. |
| AddressBits.MaskedBits | wireguard/device/allowedips.go:73-78 | Masking keeps the first cidr bits and clears all others. |
| Trie.TrieEntry.MaskSelf | wireguard/device/allowedips.go:73-78 | The masking loop leaves each byte as the prefix mask has it. |
| Trie.TrieEntry.Matches | wireguard/device/allowedips.go:88-99 | The comparison of common bits with the prefix length holds exactly when the node's prefix covers the address. |
| Trie.KeysUnique | wireguard/device/allowedips.go:101-189 | In a well-shaped trie no two nodes have the same prefix. |
| Trie.SearchEnd | wireguard/device/allowedips.go:191-205 | A search that stops has visited every node whose prefix covers the address, and no other. |
| Trie.LeafKeepsShape | wireguard/device/allowedips.go:134-145 | Hanging a leaf keeps the shape: children extend their parent on the chosen bit, slots and parent indirections are inverse, peerless nodes have two children. |
| Trie.NodeAboveKeepsShape | wireguard/device/allowedips.go:152-165 | Hanging a node above an existing one keeps the shape. |
| Trie.ForkKeepsShape | wireguard/device/allowedips.go:167-188 | Splicing in a peerless fork above two nodes keeps the shape. |
| Trie.LiftKeeps | wireguard/device/allowedips.go:240-264 | Replacing a node by its only child keeps slots, parents and prefixes consistent. |
| Routing.BestIsLongest | wireguard/device/allowedips.go:191-205 | The last node with a peer among those visited is the longest match. |
| Routing.LeafSound | wireguard/device/allowedips.go:102-145 | After a leaf is placed, trie and lists show the old routes with the new one. |
| Routing.NodeAboveSound | wireguard/device/allowedips.go:146-165 | The same after a node is placed above another. |
| Routing.ForkSound | wireguard/device/allowedips.go:167-188 | The same after a fork is spliced in. |
| Routing.CollapseSound | wireguard/device/allowedips.go:226-266 | Collapsing a peerless node with one child keeps all routes. |
| Routing.NoRoutesNoNodes | wireguard/device/allowedips.go:226-266 | A sound trie without routes has no nodes at all. |
| Routing.EntriesExact | wireguard/device/allowedips.go:213-224 | A prefix is routed to a peer if and only if an entry of the peer's list has it. |
| Routing.EntriesDistinct | wireguard/device/allowedips.go:58-67 | No prefix is twice in a peer's list. |
| AllowedIPs.Table.constructor | wireguard/device/allowedips.go:207-211 | An empty table is valid and has no routes. |
| AllowedIPs.Table.LookupFrom | wireguard/device/allowedips.go:191-205 | The descent from a root finds the peer of the longest prefix that covers the address, or none if no prefix does. |
| AllowedIPs.Table.Lookup | wireguard/device/allowedips.go:283-294 | The same, from the root for the address length. |
| AllowedIPs.Table.NodePlacement | wireguard/device/allowedips.go:88-99 | The node returned is the deepest one whose prefix contains the new one, exact if and only if they are equal. |
| AllowedIPs.Table.Insert | wireguard/device/allowedips.go:101-189 | The routes become the old ones with this prefix mapped to this peer; shape and lists stay valid; at most two nodes are added. |
| AllowedIPs.Table.Collapse | wireguard/device/allowedips.go:253-264 | Removing a peerless node with at most one child keeps the routes. |
| AllowedIPs.Table.RemoveEntry | wireguard/device/allowedips.go:231-265 | One entry of a peer is taken out: its prefix is routed nowhere, all others as before. |
| AllowedIPs.Table.RemoveByPeer | wireguard/device/allowedips.go:226-266 | Exactly the routes to the peer are gone, its list is empty, all other lists are untouched. |
| AllowedIPs.Table.EntriesForPeer | wireguard/device/allowedips.go:213-224 | The callback gets prefixes routed to the peer, with their host bits zero, none twice, until it declines; all of them if it never does. |
| RoutingRuns.AfterIsLive | wireguard/device/allowedips.go:268-281 | A route is held after a run exactly when some insertion of it was followed by no insertion of the same prefix and no removal of its peer. |
| RoutingRuns.Run | wireguard/device/allowedips.go:226-281 | After any sequence of insertions and removals the table is valid and holds the routes a map would hold. |
| RoutingRuns.LookupAfter | wireguard/device/allowedips.go:191-205 | After any such sequence a lookup gives the peer of the longest live prefix covering the address, and what the list-based router gives. |
| RoutingRuns.SlowAfter | wireguard/device/allowedips_rand_test.go:81-141 | The list-based router, driven by the same operations, holds exactly the routes of its family, longest first. |
| SlowRouter.LookupIsLongest | wireguard/device/allowedips_rand_test.go:60-68 | The first match in the list is the longest match. |
| SlowRouter.LongestUnique | wireguard/device/allowedips_rand_test.go:60-68 | There is only one longest match. |
| SlowRouter.InsertMirrors | wireguard/device/allowedips_rand_test.go:43-58 | Inserting replaces the prefix's peer or adds the prefix in its place. |
| SlowRouter.RemoveMirrors | wireguard/device/allowedips_rand_test.go:70-79 | Removing a peer leaves exactly the other peers' prefixes, in order. |
| RoutingRuns.AllDropped | wireguard/device/allowedips.go:226-266 | Removing every peer that was inserted leaves no route. |
| RoutingRuns.NoRoutesEmptyTries | wireguard/device/allowedips.go:226-266 | A table without routes has two empty tries. |
| Replay.Filter.Reset | wireguard/replay/replay.go:30-33 | The filter is empty afterwards, whatever the ring held, though only one block is cleared. |
| Replay.Filter.Advance | wireguard/replay/replay.go:42-51 | Sliding the window up leaves the ring showing exactly the accepted counters of the blocks it now stands for. |
| Replay.Filter.Mark | wireguard/replay/replay.go:55-61 | The bit changes exactly when the counter had not been accepted. |
| Replay.Filter.ValidateCounter | wireguard/replay/replay.go:37-62 | True exactly when the counter is below the limit, was not accepted before, and is at most 8128 behind every accepted one; then it is accepted, otherwise nothing changes. |
| Replay.Run | wireguard/replay/replay.go:30-62 | After a reset over any ring content every call of any sequence is answered as the unbounded set would. |
| Replay.AcceptedOnce | wireguard/replay/replay.go:20-23 | No counter is accepted twice in a run. |
| Ratelimiter.Limiter.Cleanup | wireguard/ratelimiter/ratelimiter.go:84-97 | Exactly the entries idle for more than a second by the clock read for them are deleted; reports whether none is left. |
| Ratelimiter.Limiter.Allow | wireguard/ratelimiter/ratelimiter.go:99-137 | A call that no other overlaps: the packet passes exactly when its address has more than one packet's tokens; an address without an entry has a full bucket. |
| Ratelimiter.Limiter.Run | wireguard/ratelimiter/ratelimiter.go:84-137 | The table and the answers of a whole sequence of such calls and of collections. |
| Ratelimiter.FinalSane | wireguard/ratelimiter/ratelimiter.go:120-134 | In every reachable table each bucket has more than zero and at most the maximum of tokens. |
| Ratelimiter.TokensFit | wireguard/ratelimiter/ratelimiter.go:121-127 | The 64-bit token sum does not overflow as long as a bucket was used within 292 years. |
| Ratelimiter.GarbageCollectionInvisible | wireguard/ratelimiter/ratelimiter.go:84-97 | Of calls one after the other: collecting at any times answers every packet as a limiter that never deletes. |
| Ratelimiter.RateBound | wireguard/ratelimiter/ratelimiter.go:99-137 | Of calls one after the other: in any window of any run the packets passed for one address cost less than a full bucket plus the time elapsed. |
| Ratelimiter.SpreadPasses | wireguard/ratelimiter/ratelimiter.go:99-137 | Of calls one after the other: an address whose packets come a packet's cost or more apart is never refused, whatever others do. |
| Ratelimiter.BurstExact | wireguard/ratelimiter/ratelimiter.go:120-134 | For every table and every n: of n packets at one instant exactly as many pass as the level, less one, holds whole packets. |
| Ratelimiter.FifthNeedsTime | wireguard/ratelimiter/ratelimiter.go:14-20 | Of five packets of a new address, at any times, the first four pass, and the fifth if and only if it comes later than the first. |
| Ratelimiter.BurstOfFour | wireguard/ratelimiter/ratelimiter.go:14-20 | Of n packets of a new address at one instant four pass, not five, however many there are. |
| LimiterRuns.StepExact | wireguard/ratelimiter/ratelimiter.go:101-118 | A look-up or a collection disturbs no call under way if and only if every undisturbed continuation is answered as the sequential limiter that never deletes would. |
| LimiterRuns.RunExact | wireguard/ratelimiter/ratelimiter.go:84-137 | Calls that overlap, interleaved with collection: at every point and however the run goes on, answers are those of the sequential limiter that never deletes, if and only if no two first calls of an address overlap and nothing is collected between a call's look-up and its charge. |
| LimiterRuns.CleanRateBound | wireguard/ratelimiter/ratelimiter.go:99-137 | Under that condition the rate bound holds in every window of every run. |
| LimiterRuns.OverlappingRateBound | wireguard/ratelimiter/ratelimiter.go:99-137 | Without it: the packets passed cost less than a full bucket, the time elapsed, and a surplus of one packet's cost for each overlapping or stray decision and one full bucket for each overlapping publication. |
| LimiterRuns.TwoFirstCalls | wireguard/ratelimiter/ratelimiter.go:101-118 | A run in which two calls miss before either publishes, and eight packets pass at one instant. |
| LimiterRuns.CollectedBetween | wireguard/ratelimiter/ratelimiter.go:84-137 | A run in which an entry is collected between a call's look-up and its charge, and five packets pass where four would. |
| Checksum.OnesMeans | wireguard/tun/checksum.go:102-109 | The folded sum is the one 16-bit number congruent to the sum modulo 65535 that is zero only for zero. |
| Checksum.FourFolds | wireguard/tun/checksum.go:102-109 | Four folds bring every 64-bit accumulator to that number. |
| Checksum.WordSumIsSum | wireguard/tun/checksum.go:7-100 | The sum of 32-bit words exceeds that of 16-bit words by a multiple of 65535, and is zero if that is. |
| Checksum.SumSplit | wireguard/tun/checksum.go:111-118 | Sums of pieces add up when the cut is at an even offset. |
| Checksum.AddRung | wireguard/tun/checksum.go:45-90 | One rung of the size ladder adds its block if that many bytes are left. |
| Checksum.ChecksumNoFold | wireguard/tun/checksum.go:7-100 | Unrolled loop and ladder give initial value plus sum of 32-bit words, modulo 2^64. |
| Checksum.Checksum | wireguard/tun/checksum.go:102-109 | The folded result is the ones' complement sum of initial value and 16-bit words, for every buffer a packet fits in. |
| Checksum.SimpleChecksum | wireguard/tun/tuntest/tuntest.go:29-41 | The loop over 16-bit words gives the complement of the ones' complement sum. |
| Checksum.BothForms | wireguard/tun/checksum.go:102-109 | The fast form is the complement of the simple one on every buffer up to 65535 bytes. |
| Checksum.PseudoHeaderChecksumNoFold | wireguard/tun/checksum.go:111-118 | The four partial sums add up to the pseudo header's, without wrapping. |
| PacketFields.ChecksumValid | wireguard/tun/offload_linux.go:388-398 | True exactly when the sum over pseudo header and segment folds to 0xffff. |
| PacketFields.SealVerifies | wireguard/tun/offload_linux.go:973-978 | Writing the complement of the sum into a zeroed checksum field makes the packet verify. |
| PacketFields.SealHeader | wireguard/tun/offload_linux.go:945-947 | The same for an IPv4 header. |
| Gso.SplitIpHeader | wireguard/tun/offload_linux.go:935-951 | Length and identification are those of segment i, the IPv4 header checksum folds to 0xffff, every other byte is the packet's. |
| Gso.SplitTcpHeader | wireguard/tun/offload_linux.go:953-964 | The sequence number is advanced modulo 2^32, bits 0 and 3 of the flags, FIN and PSH, are clear on all but the last segment and every other bit and byte is kept. |
| Gso.SplitUdpHeader | wireguard/tun/offload_linux.go:965-968 | The length field is that of the segment, the ports are kept. |
| Gso.Product16 | wireguard/tun/offload_linux.go:958-958 | The 16-bit product that advances the sequence number is exact whenever it fits, as it does for every segment of a packet of up to 65535 bytes. |
| Gso.SplitSegment | wireguard/tun/offload_linux.go:926-978 | A segment: lengths, identification, exact sequence number, flags, payload slice, and both checksums verify. |
| Gso.GsoSplit | wireguard/tun/offload_linux.go:901-983 | Succeeds exactly when the payload fits as many segments as there are buffers; then the packets are all the segments, in order, none left over. |
| Gso.PayloadsRejoin | wireguard/tun/offload_linux.go:970-981 | The segments' payloads make up the packet's, nothing lost or repeated. |
| VirtioRead.CheckExact | wireguard/tun/tun_linux.go:399-446 | A plausible virtio header passes exactly when the packet holds the whole transport header; the header that results describes the packet, whatever hdrLen the kernel gave. |
| VirtioRead.FaultExact | wireguard/tun/tun_linux.go:399-443 | Which refusal it is: an unknown kind, a bad version, a kind that does not fit the version, no room for the length of the TCP header, that length too small, or no room for the header. |
| VirtioRead.GsoNoneChecksum | wireguard/tun/offload_linux.go:985-993 | Only the checksum field changes; at an even offset, and where it held the pseudo header's sum, the packet then verifies. |
| VirtioRead.HandleVirtioRead | wireguard/tun/tun_linux.go:375-449 | Which error is returned; a plain packet comes out unchanged, or with its checksum completed; any other as its split. |
| GroGroups.PacketIsGroCandidate | wireguard/tun/offload_linux.go:751-775 | A candidate has room for its headers, the version bits of its family, the protocol number of its kind, and no IPv4 options. |
| GroGroups.FlowExact | wireguard/tun/offload_linux.go:85-203 | Two packets have one flow key if and only if their bytes agree in both addresses, both ports and, for TCP, the acknowledgement number. |
| GroGroups.GroupFull | wireguard/tun/offload_linux.go:350-362 | When a group's length is a multiple of the segment size all its members are full, and the 16-bit length computed from the count is exact. |
| GroGroups.KinToAll | wireguard/tun/offload_linux.go:279-349 | A packet that may merge with a group has the version, type of service, time to live, fragment flags and TCP options of all its members. |
| GroGroups.AppendKeepsGroup | wireguard/tun/offload_linux.go:314-367 | Appending what may be appended makes the group of the members and the new packet, with consecutive sequence numbers. |
| GroGroups.PrependKeepsGroup | wireguard/tun/offload_linux.go:368-384 | Prepending what may be prepended makes the group of the new packet and the members, even when the segment size grows. |
| GroState.CountFits | wireguard/tun/offload_linux.go:500-505 | A group never has so many members that the 16-bit count would wrap. |
| GroState.PartitionMerge | wireguard/tun/offload_linux.go:472-474 | Merging a packet keeps every input in exactly one group. |
| GroState.OrderedMerge | wireguard/tun/offload_linux.go:832-843 | Merging into the last item only keeps a UDP flow's groups in order of arrival. |
| GroWorld.StepMerge | wireguard/tun/offload_linux.go:131-134 | Replacing an item after a merge keeps buffers, tables and groups consistent. |
| GroWorld.StepDrop | wireguard/tun/offload_linux.go:136-140 | Dropping an unmerged item keeps them consistent: its packet stays listed and unchanged. |
| Gro.CoalesceAppend | wireguard/tun/offload_linux.go:475-506 | Succeeds exactly when the result fits the buffer and both packets verify; then the buffer holds the group with the packet last. |
| Gro.CoalescePrepend | wireguard/tun/offload_linux.go:449-474 | The same with the packet first, in the packet's own buffer. |
| Gro.Batch.Coalesce | wireguard/tun/offload_linux.go:444-506 | A merge replaces the item and, when prepending, exchanges the buffers; a failure changes nothing. |
| Gro.Batch.TcpGro | wireguard/tun/offload_linux.go:531-621 | The packet is coalesced exactly when some item of its flow can take it, and then with the last of those; otherwise it is tracked, or passed over only if it is not tried or its checksum is bad; everything stays consistent. |
| Gro.Batch.UdpGro | wireguard/tun/offload_linux.go:786-858 | The packet is coalesced exactly when the last item of its flow can take it; otherwise it becomes a new item after that one, or is left alone exactly when it offers nothing. |
| GroRoundTrip.Account | wireguard/tun/offload_linux.go:625-739 | Lengths fit the merged packet, the IPv4 header checksum is valid, the transport checksum field holds the pseudo header's sum, nothing else changes. |
| GroRoundTrip.HeaderReadBack | wireguard/tun/tun_linux.go:417-446 | The reading side takes the virtio header exactly as the accounting pass wrote it. |
| GroRoundTrip.RoundTrip | wireguard/tun/offload_linux.go:901-983 | Splitting the accounted merge gives back every member in order: byte for byte the same addresses, ports, protocol and acknowledgement number, same length, payload, sequence number, type of service, time to live and TCP options, a right length field, and both checksums verify. |
| GroRoundTrip.FlagsRoundTrip | wireguard/tun/offload_linux.go:448-508 | Merging and splitting give every TCP packet its flags back if and only if the last member of the group had no PSH, or the first did not come after it. |
| GroRoundTrip.AsksForChecksum | wireguard/tun/offload_linux.go:629-636 | The virtio header of a merged packet asks for its checksum to be completed, and completing it where the header says makes the packet verify. |
| GroMerging.TcpTried | wireguard/tun/offload_linux.go:531-579 | Coalescing is tried with a TCP packet if and only if it is whole, without IP options, has some payload and flags ACK or ACK and PSH; then it offers its sequence number, PSH flag and sizes. |
| GroMerging.UdpTried | wireguard/tun/offload_linux.go:786-821 | With a UDP packet if and only if the device can, it is whole, without IP options, and has some payload. |
| GroMerging.AppendExact | wireguard/tun/offload_linux.go:314-367 | A packet of the flow may be appended if and only if it is kin to the group, all members are full, it is no longer than they, and for TCP its bytes follow the last one's, which had no PSH. |
| GroMerging.PrependExact | wireguard/tun/offload_linux.go:368-385 | It may be put in front if and only if the flow is of TCP, it is kin to the group, its bytes come just before the first one's, it has no PSH, and it is as long as the members, or longer than the only one. |
| GroMerging.PshLost | wireguard/tun/offload_linux.go:450-482 | Any two segments of which the later, with PSH, came first merge to a packet without PSH. |
| GroMerging.SwappedSegments | wireguard/tun/offload_linux.go:450-482 | Two such segments. |
| Gro.Batch.HandleGro | wireguard/tun/offload_linux.go:865-896 | Fails exactly for a bad offset or an empty packet. Otherwise the write list is ascending and names exactly the buffers that stand for some input, each input in exactly one of them, unchanged with an empty virtio header or merged with others of its flow; an item is dropped only for a bad TCP checksum; of two packets of a UDP flow the later is written first if and only if coalescing is not tried with the earlier and the later's group was begun before it. |
| GroOrder.FlowOrder | wireguard/tun/offload_linux.go:832-835 | That condition, for every state of a batch and every two packets of a UDP flow. |
| GroOrder.UdpFlowExact | wireguard/tun/offload_linux.go:193-203 | Two packets are of one UDP flow if and only if they are UDP packets of one IP version with equal addresses and ports. |
| GroOrder.TriedFlowInOrder | wireguard/tun/offload_linux.go:786-858 | A UDP flow with whose every packet coalescing is tried is written in order of arrival. |
| GroReordering.OvertakesWhen | wireguard/tun/offload_linux.go:817-843 | At its turn a packet overtakes an earlier one of its flow if and only if the last item of the flow takes it in and a packet with which coalescing was not tried came after that item's first. |
| GroReordering.InOrderExactly | wireguard/tun/offload_linux.go:786-896 | Over a whole batch a UDP flow is written in the order in which it came if and only if that guard holds at none of its turns. |
| GroReordering.HandleInOrder | wireguard/tun/offload_linux.go:865-896 | The same of every flow of every batch that is handled. |
| GroReordering.Overtaken | wireguard/tun/offload_linux.go:786-896 | Any three packets of a flow of which the first and third merge and the second is not tried are written first, third, second. |
| GroReordering.EmptyBetween | wireguard/tun/offload_linux.go:817-821 | An input of that kind: an empty datagram between two others. |
| Gro.ReadBack | wireguard/tun/tun_linux.go:375-449 | Reading a written merge back restores all its members in order, and their flags exactly when the PSH flag was not lost. |
| Gro.ReadAlone | wireguard/tun/tun_linux.go:375-400 | Reading back a packet that was written alone gives it as it was. |
| Noise.SharedCommutes | wireguard/device/noise-helpers.go:100-108 | Both sides compute the same shared secret. |
| Noise.HashFixesTranscript | wireguard/device/noise-protocol.go:145-151 | Equal final hashes come from one exchange: same identities, ephemeral keys, preshared key and timestamp. |
| Noise.ChainFixesKeys | wireguard/device/noise-protocol.go:141-143 | Equal final chain keys come from one exchange, but for the timestamp: same identities, ephemeral keys and preshared key. |
| Noise.SessionSecrets | wireguard/device/noise-protocol.go:203-229 | The session keys can be worked out if and only if one has, of each of the four pairs of keys the exchange combines, one private key, and the preshared key. |
| Noise.BoxSecrets | wireguard/device/noise-protocol.go:196-235 | The initiator's static key is sealed under the first of these pairs, its timestamp under the first two, the response under all and the preshared key. |
| Noise.InitiationCloses | wireguard/device/noise-protocol.go:187-244 | The initiator's steps yield the boxes and the record of its exchange. |
| Noise.InitiationOpens | wireguard/device/noise-protocol.go:260-316 | Both boxes open exactly for the initiations of an exchange with this device, and leave its hash and chain key. |
| Noise.ResponseCloses | wireguard/device/noise-protocol.go:369-416 | The responder's steps yield the response and the record that end the exchange it consumed. |
| Noise.ResponseOpens | wireguard/device/noise-protocol.go:440-503 | The response's box opens exactly for the response that ends the initiator's own exchange. |
| Noise.Agreement | wireguard/device/noise-protocol.go:419-514 | If an initiator's record took a response and a responder's record built it, both hold the same hash and chain key, and are each other's peers with one preshared key. |
| Noise.KeysCross | wireguard/device/noise-protocol.go:531-549 | Session keys match crosswise exactly when the chain keys are equal, and the two directions differ. |
| Indices.IndicesDistinct | wireguard/device/indextable.go:14-23 | With an exact table no index has two uses, of one peer or of two. |
| Indices.AddPending | wireguard/device/indextable.go:58-92 | Taking a free index keeps the table exact if and only if it is not zero. |
| Indices.Rotation | wireguard/device/noise-protocol.go:573-603 | Swapping the pending index for the new keypair and rotating the slots keeps the table exact: retired keypairs are out of it. |
| Indices.Confirmation | wireguard/device/noise-protocol.go:608-625 | Moving the next keypair into use keeps the table exact. |
| Indices.AllKeypairsDropped | wireguard/device/peer.go:230-239 | Deleting all three keypairs keeps it exact. |
| Indices.IndexTable.NewIndexForHandshake | wireguard/device/indextable.go:58-92 | The first draw that is free is taken, for the peer's handshake. |
| Exchanges.ConcludedLedger | wireguard/device/noise-protocol.go:519-576 | A keypair made from an exchange under way has that exchange's keys and indices, and no other keypair has its number. |
| Exchanges.RecordSession | wireguard/device/noise-protocol.go:531-570 | A completed record gives a keypair with the keys of its exchange and the indices of the response that ended it. |
| Exchanges.HeardMore | wireguard/device/noise-protocol.go:311-340 | An initiation that is newer than the last and comes long enough after it keeps what was accepted spaced, and the record's two fields that of the last. |
| Exchanges.HeardOnce | wireguard/device/noise-protocol.go:314-319 | No initiation is among those accepted twice. |
| Exchanges.SessionsCross | wireguard/device/noise-protocol.go:419-576 | If one device made a keypair by accepting a response and another by creating it, each sends with what the other receives with, and each meant the other. The two indices are not in the response's box: each side has the other's exactly when that field arrived as it was sent. |
| Exchanges.AcceptedFrom | wireguard/device/noise-protocol.go:419-514 | A response whose box another device sealed was accepted in the very exchange in which it was sealed. |
| Device.Device.NewPeer | wireguard/device/peer.go:64-112 | Refused exactly when the device is closed, has 65536 peers or knows the key; otherwise the peer is new, not running, with nothing pending and no keypairs. |
| Device.Device.Start | wireguard/device/peer.go:184-223 | A peer of a device that is not closed runs; nothing else changes. |
| Device.Device.Stop | wireguard/device/peer.go:270-288 | A running peer is stopped, and the index table holds nothing of it; the device stays valid. |
| Device.Device.RemovePeer | wireguard/device/device.go:128-136 | The peer is stopped and its key forgotten; the device stays valid with what still runs for it. |
| Device.Device.CreateMessageInitiation | wireguard/device/noise-protocol.go:177-245 | A message that starts the recorded exchange, under a fresh index; refused exactly for a key of low order; the device stays valid. |
| Device.Device.ConsumeMessageInitiation | wireguard/device/noise-protocol.go:247-349 | Accepted exactly when it starts an exchange with this device, from a known running peer, with a newer timestamp and no flood; then that peer's record follows the exchange, and it is the last of those accepted, its timestamp and time being the record's; otherwise nothing changes. |
| Device.Device.CreateMessageResponse | wireguard/device/noise-protocol.go:351-417 | Exactly after an initiation was consumed: a message that ends that exchange, under a fresh index. |
| Device.Device.ConsumeMessageResponse | wireguard/device/noise-protocol.go:419-514 | Accepted exactly when its receiver index is pending for a created initiation and it ends that exchange; otherwise nothing changes. |
| Device.Device.BeginSymmetricSession | wireguard/device/noise-protocol.go:519-606 | Exactly after a completed exchange: a keypair with that exchange's keys and index, recorded under the exchange's number. The initiator sends with it and keeps as previous the keypair that was waiting, or else the one that was sending; the responder has it waiting, goes on sending as before and keeps no previous one. The record is zeroed, so that no second keypair follows; the swap always finds its entry. |
| Device.Device.Rotate | wireguard/device/noise-protocol.go:580-603 | Which keypair is in each of the three slots afterwards, as initiator and as responder, and which two indices are deleted. |
| Device.Device.ReceivedWithKeypair | wireguard/device/noise-protocol.go:608-625 | Rotates exactly when the keypair is the one waiting. |
| Device.Device.ReceivePacket | wireguard/device/receive.go:452-467 | A packet confirms its keypair exactly when it is authentic and its counter is new; a keypair made as responder comes into use for sending only so. |
| Device.Device.CurrentKeypair | wireguard/device/keypair.go:42-46 | The keypair used for sending was derived as initiator or has been confirmed by a packet, was made here, and is in the table under its index. |
| Device.Device.ZeroAndFlushAll | wireguard/device/peer.go:225-249 | The peer's keypairs and handshake are forgotten, and the table holds nothing of it. |
| Device.Device.ExpireCurrentKeypairs | wireguard/device/peer.go:251-268 | The pending handshake is given up, current and next keypair send no more. |
| HandshakeRun.Exchange | wireguard/device/send.go:224-259 | An exchange delivered unmodified, the responder deriving its session before its response leaves, with matching keys, a fresh timestamp and no flood, is accepted by both, and each receives with the key and index the other sends with. |
| DeviceRuns.Run | wireguard/device/noise-protocol.go:177-625 | After any sequence of operations on one device, peers being added, started, stopped and removed, with any messages and draws: the table holds exactly the indices in use, no two alike; every record follows its exchange; what sends was confirmed; no two keypairs ever made came of one exchange; of any two initiations accepted from a peer the later has the later timestamp and came more than 20 ms after the earlier, and none was accepted twice. |
| DeviceRuns.Perform | wireguard/device/peer.go:184-288 | Every operation keeps all this; peers keep their identity and forget no initiation; and the keypairs of a peer stay in their slots unless the operation is a new session, a confirmation, or the end of that peer. |
| DeviceRuns.Rekey | wireguard/device/noise-protocol.go:586-597 | After a new session as initiator, whatever happens until the next rotation, the keypair that was waiting, or else the one that was sending, is the previous one and in the table under its index. |
| DeviceRuns.RunNetwork | wireguard/device/noise-protocol.go:177-606 | Several devices taking turns in any order, with messages lost, repeated, reordered or forged: all stay valid, and any two keypairs made by accepting and by creating one response cross in their keys, and in an index exactly when it arrived as it was sent. |
| SendNonce.NoncesUnique | wireguard/device/send.go:427-454 | For every interleaving of up to 2^13 senders with expiry no nonce is given twice and none reaches the limit; the counter never wraps, and never falls below the limit once there. |
| InitiationRuns.FromStart | wireguard/device/noise-protocol.go:293-342 | With several workers: as long as no initiation is tested while another is about to be written, what is accepted is spaced. |
| InitiationRuns.SpacedExactly | wireguard/device/noise-protocol.go:293-342 | From any good state this holds of all that follows if and only if no two initiations are between test and writing. |
| InitiationRuns.AcceptedTwice | wireguard/device/noise-protocol.go:293-342 | Two workers that take one initiation at the same time both accept it. |
| ResponseRuns.FromStart | wireguard/device/noise-protocol.go:439-514 | With several workers: as long as no response is tested while another is about to be written, no exchange gives two keypairs. |
| ResponseRuns.OnceExactly | wireguard/device/noise-protocol.go:439-514 | From any good state this holds of all that follows if and only if no exchange has two responses between test and session. |
| SendNonce.ExpiryIsFinal | wireguard/device/peer.go:259-267 | Once a keypair has expired no nonce is given any more, however senders interleave. |
| SendNonce.OneTooMany | wireguard/device/constants.go:16-16 | For every number of senders: the counter can fall below the limit it has reached if and only if they are more than 2^13. |
| SendNonce.GivenTwice | wireguard/device/send.go:440-442 | With 2^13 + 2 senders or more, a run in which one nonce is given twice. |
| SendNonce.ReuseExact | wireguard/device/send.go:427-454 | In every run every nonce is given at most once if and only if there are at most 2^13 + 1 senders. |
| SendNonce.AssignNonces | wireguard/device/send.go:437-456 | The container is compacted in place to the packets below the limit, in order; the others are returned in order. |
| SendNonce.SplitPartitions | wireguard/device/send.go:437-460 | The two parts together are the container, packet for packet. |
| SendNonce.KeptBelowLimit | wireguard/device/send.go:440-451 | Only nonces below the limit are sent. |
| UdpBatch.CoalesceMessages | wireguard/conn/bind_std.go:450-498 | The messages hold all datagrams in order; each has at most 64, all of the first one's size but the last, within payload limit and capacity; the segment size is set exactly when there is more than one; a message ends only when the next datagram does not fit it. |
| UdpBatch.SplitMessage | wireguard/conn/bind_std.go:503-541 | The pieces of one message are placed from n on, though the last may overwrite the message itself; fails exactly when a place beyond the message would be needed. |
| UdpBatch.SplitCoalescedMessages | wireguard/conn/bind_std.go:502-544 | The front of the array holds all segments of all messages in order; fails exactly when some message has more pieces than there are places up to it. |
| UdpBatch.TwoMessagesFit | wireguard/conn/bind_std.go:243-248 | As the receiver calls it, splitting never fails for messages of up to 64 segments. |
| UdpBatch.Lossless | wireguard/conn/bind_std.go:450-544 | Batching and splitting return the original datagrams byte for byte and in order if and only if none of them is empty. |
| UdpBatch.ThereAndBack | wireguard/conn/bind_std.go:450-544 | The whole way within one array: with enough places in front the array then starts with the datagrams as they were sent if and only if none is empty. |
| Ownership.DrawCount | wireguard/device/send.go:437-464 | A draw puts an element into exactly one part of its container: to be sent, or to be staged again. |
| Ownership.StagePushCount | wireguard/device/send.go:402-419 | Staging one container keeps every element, in the queue or in hand. |
| Ownership.StageEvictCount | wireguard/device/send.go:409-417 | Making room frees exactly what is pushed out. |
| Ownership.StepCount | wireguard/device/send.go:290-381 | Each step, one operation on a channel or one draw, moves elements and buffers without losing or doubling one. |
| Ownership.StartConserved | wireguard/device/send.go:300-323 | The reader's first set of slots is all there is. |
| Ownership.Conservation | wireguard/device/send.go:402-501 | In every state of every run, however goroutines interleave within staging, sending and flushing, each element and each buffer is in exactly one place, a goroutine's hand being one, and in a pool at most once. |
| OwnershipRuns.ReleasedExactly | wireguard/device/send.go:310-501 | An element comes into the pool by a step if and only if it was transmitted, flushed or evicted by it, was a keepalive without room, belonged to a stopped peer, or the reader ended. |
| OwnershipRuns.OnlyReleased | wireguard/device/send.go:310-501 | Over a run, what was in use and is in the pool was released so in between. |
| OwnershipRuns.LeavesHand | wireguard/device/send.go:466-480 | What a sender holds with a nonce below the limit leaves its hand only into its peer's outbound queue, or into the pool if the peer was not running at its look. |
| OwnershipRuns.QueuedIfRunning | wireguard/device/send.go:468-470 | What a sender queues it had in hand when it looked and found the peer running. |
| OwnershipRuns.GoesBackToStaged | wireguard/device/send.go:458-460 | What is set aside leaves the hand only into the peer's staged queue. |
| OwnershipRuns.NoncesKept | wireguard/device/send.go:437-454 | In every state of every run what is queued to go out, or about to be, was last given a nonce below the limit. |
| OwnershipRuns.NoncesFromStart | wireguard/device/send.go:437-454 | The same of every run from the start. |
| OwnershipRuns.StepOutbound | wireguard/device/send.go:468-470 | A container comes into an outbound queue only at its end, from a sender that is about to queue it. |
| OwnershipRuns.Fifo | wireguard/device/send.go:402-501 | The staged and the outbound queue of every peer are first in, first out, over every run. |
| OwnershipRuns.QueuesBounded | wireguard/device/send.go:402-419 | No queue grows beyond its size. |
| OwnershipRuns.RunsAsTold | wireguard/device/peer.go:184-288 | A peer runs or not as it was last told to. |
| QueueLifetime.StepInv | wireguard/device/device.go:139-205 | Every step, rebinding and the parts of Up, Down and Close among them, keeps the queues' counts equal to their writers, and Closed closed. |
| QueueLifetime.LifetimeFromStart | wireguard/device/device.go:282-328 | It holds in every run of a new device. |
| QueueLifetime.StepRunning | wireguard/device/device.go:171-205 | After a step a peer runs if and only if the step starts it, or it ran and the step does not stop it. |
| QueueLifetime.StepPeers | wireguard/device/device.go:129-137 | It is a peer if and only if the step adds it, or it was one and the step does not remove it. |
| QueueLifetime.ReceiversOfLastBind | wireguard/device/device.go:469-527 | There are the receivers of the last bind, but for those that have ended since. |
| QueueLifetime.UpOutcome | wireguard/device/device.go:171-191 | Whatever comes between: when Up starts the peers, the device is up, a bind has succeeded whose receivers there are, all peers run, and one ceases to only by being stopped or removed. |
| QueueLifetime.DownOutcome | wireguard/device/device.go:193-205 | Whatever comes between: a Down, or an Up whose bind failed, ends only by stopping all peers; then there are no receivers, and only such peers run as were started one by one since. |
| QueueLifetime.OnTheWayDown | wireguard/device/device.go:154-168 | Down on a device that is up, and an Up whose bind fails, both set out on that way. |
| QueueLifetime.RemovedOutcome | wireguard/device/device.go:129-137 | A peer that is removed is none and does not run until it is added again. |
| QueueLifetime.UpAlone | wireguard/device/device.go:139-191 | With nothing between, Up ends with all peers running and the receivers of the bind. |
| QueueLifetime.UpFails | wireguard/device/device.go:154-168 | If the bind fails, it ends as Down does. |
| QueueLifetime.DownAlone | wireguard/device/device.go:193-205 | With nothing between, Down ends with no peers running and no receivers. |
| QueueLifetime.CloseAlone | wireguard/device/device.go:368-398 | With nothing between, Close ends with the receivers ended, all peers removed and the device's references dropped. |
| QueueLifetime.CloseOutcome | wireguard/device/device.go:388-393 | After Close all three queues come to be closed, once the workers and the reader have ended. |
| QueueLifetime.CloseProceeds | wireguard/device/device.go:368-398 | Each part of Close can follow the one before; afterwards the encryption queue can close if and only if the reader and the workers have ended. |
| QueueLifetime.NoRevival | wireguard/device/device.go:469-527 | A count that is zero is never added to, and a closed queue stays closed. |
| QueueLifetime.EncryptionClosesLast | wireguard/device/channels.go:26-36 | The encryption queue is closed only after the handshake queue, all peers, the workers and the reader are done; nobody is left to write to a closed queue. |
| QueueLifetime.Lifetime | wireguard/device/device.go:368-398 | All this holds in every state of every run of Up, Down, Close, rebinding and the routines; Closed is for good. |
| Lcg.Generator.constructor | ipscanner/internal/iterator/iterator.go:22-50 | The first draw of parameters that passes the check is taken. |
| Lcg.Generator.Next | ipscanner/internal/iterator/iterator.go:74-86 | The next residue; the case that ends the sequence never arises. |
| Lcg.CoprimeIsOdd | ipscanner/internal/iterator/iterator.go:54-58 | Against a power of two the first condition of the check is an odd increment. |
| Lcg.GeometricDivides | ipscanner/internal/iterator/iterator.go:60-68 | For a multiplier that is 1 modulo 4, 2^k divides a geometric sum exactly when it divides the number of terms. |
| Lcg.HullDobell | ipscanner/internal/iterator/iterator.go:52-71 | For every power of two from four on the check passes exactly the parameters with which all residues come up once. |
| Lcg.SizeOne | ipscanner/internal/iterator/iterator.go:52-86 | A range of one address passes and is covered. |
| Lcg.SizeTwo | ipscanner/internal/iterator/iterator.go:52-71 | For two addresses the check passes parameters that never give one of them; the exact condition is multiplier and increment one. |
| IpIterator.AddWithin | ipscanner/internal/iterator/iterator.go:145-151 | Within a masked prefix addition through the 16-byte form stays in the family and counts from the start. |
| IpIterator.IpGenerator.Pass | ipscanner/internal/iterator/iterator.go:172-184 | One address of every range that has any left, in order; each generator stays in step with its index. |
| IpIterator.IpGenerator.Reshuffle | ipscanner/internal/iterator/iterator.go:185-197 | Every range starts over with a new generator that passes the check. |
| IpIterator.IpGenerator.NextBatch | ipscanner/internal/iterator/iterator.go:172-204 | The next batch is never empty; the ranges are reshuffled exactly when all are used up; an error exactly when there are no ranges. |
| IpIterator.AfterIndex | ipscanner/internal/iterator/iterator.go:174-184 | After n batches of an epoch each range has given n addresses, or all it has. |
| IpIterator.IpGenerator.Epoch | ipscanner/internal/iterator/iterator.go:172-204 | The batches of a whole epoch: batch n holds, in its place, the n-th address of every range that long, and nothing else; there are as many as the longest range has addresses, and the next comes from ranges started over. |
| IpIterator.CoveringExact | ipscanner/internal/iterator/iterator.go:52-71 | A range that passes the check comes to all its residues if and only if it is not of two addresses with multiplier zero. |
| IpIterator.EpochCovers | ipscanner/internal/iterator/iterator.go:172-204 | In an epoch a covering range gives every address of its prefix in exactly one batch. |
| IpIterator.EpochMisses | ipscanner/internal/iterator/iterator.go:52-71 | Any other range gives its second address in both batches, its first in none. |

## Left out

- SlowRouter: a new prefix goes before the first that is not longer; the tests' sort may order prefixes of equal length otherwise, which no lookup can tell.
- Crypto primitives: hashes, key derivation, AEAD and curve arithmetic are free constructors; secrecy is only that of terms that cannot be built from what is known.
- Device.Device.ConsumeMessageInitiation: is one step, though the code tests under the read lock and writes under the write lock; InitiationRuns says when that makes a difference.
- Device.Device.ConsumeMessageResponse: likewise; ResponseRuns says when.
- Timestamps are numbers, compared as numbers; the code compares their twelve bytes, which is the same order.
- Changing the device's private key or a peer's preshared key, cookies, MACs and timers.
- Device.Device.CheckCounter: keeps the set of accepted counters instead of the ring; that the ring answers alike is proved in module Replay.
- Gso.GsoSplit: requires that the virtio header describes the packet (IP header length, checksum offset); outputs are values, so bytes of the output buffers beyond each packet are not modelled.
- VirtioRead.HandleVirtioRead: requires a plausible virtio header and output buffers as long as the packet; decoding the header's bytes is not modelled.
- VirtioRead.GsoNoneChecksum: does not promise that the packet verifies for a checksum field at an odd offset, which no transport has.
- Gro.Batch.HandleGro: says nothing about the virtio header of a packet whose item was dropped for a bad checksum, which the code leaves unwritten; requires buffer capacities up to 65535.
- The TCP window, IPv4 identification and the IPv6 flow label are not part of the round trip: a merge keeps those of the packet in front.
- The pools of item slices inside the coalescing tables, and resetting the tables between batches.
- UdpBatch.SplitCoalescedMessages: parsing of control messages is not modelled, so its error return is not; a reported segment size is within the message.
- Addresses, source control data and the socket calls around batching.
- Ownership: element containers themselves, and the encryption workers, which change an element's packet but not its owner; putting a container's elements back into the pools is part of the step that drops it.
- LimiterRuns: the table's size and the restart of the collector's ticker, which no answer depends on.
- QueueLifetime: goroutine scheduling; a step is enabled when what it waits for has happened.
- IpIterator: `lastIP`, the shuffle of the ranges among each other, and selection of prefixes by family; prefixes are masked and do not straddle the block of mapped IPv4 addresses.
- Wall clocks: instants are parameters that never go back.
- The gVisor netstack, DNS, proxies, Psiphon, the Cloudflare API, configuration files and the command line, which are input and output around unseen libraries.

# teapod-tun2socks: a Dafny model of its Go core

teapod-tun2socks takes IP packets from an Android TUN device, asks a per-application validator whether a flow may
leave, and carries allowed TCP and UDP flows through a SOCKS5 proxy. This project models the logic of that core in
Dafny, module by module, and proves what it promises:

- **The TCP pipe pair** (`PipePair`, `IdleVerdict`, `PipeSafety`, `PipeVerdicts`, `PipeTiming`, `PipeProgress`,
  `PipeActivity`): two copy loops that share activity stamps, a once-only `shutdown` and read and write deadlines, as a
  timed transition system in which every read, stamp, write, half-close, atomic load and close is a step of its own.
  Chunk sizes, errors (also together with octets), outside closes and the clock are arbitrary.
- **The shared buffers** (`BufferPool`): any number of pipes over one `sync.Pool`, with the octets in memory.
- **The validation cache** (`Recency`, `RecencyRuns`, `LinkedRing`, `LruCache`): the map and the sentinel ring of
  `container/list`, built on the heap and proved against a recency list, whose laws are proved over all runs.
- **The hook** (`EngineHook`, `HookInclusion`, `HookProtocol`): `Validate` as a method over that cache, the LRU
  inclusion of two differently sized hooks, and the concurrent protocol in which the callback runs between two locked
  cache operations.
- **The packet filter** (`Ipv6Walker`, `Ipv6Layout`, `PacketFilter`, `TunReadLoop`, `Ipv4Layout`): the
  extension-header walk with a printer it inverts, the verdicts on packets of both IP versions, also written out octet
  by octet, and the read loop that applies them.
- **Checksums and reject replies** (`Checksum`, `ChecksumAlgebra`, `Buffers`, `IcmpReject`): RFC 1071 arithmetic in a
  wrapping uint32, and the two ICMP builders writing into byte buffers.
- **SOCKS5** (`Addresses`, `Socks5`, `Socks5Framing`, `UdpCodec`, `UdpRelay`): the client on a byte stream that
  arrives in arbitrary chunks, the server's grammar, the UDP datagram codec and the two relay loops.
- **Admission and lifecycle** (`UdpSlots`, `Lifecycle`): the UDP slot counter and the start and stop protocol, for
  any number of concurrent actors.

Objects that the program updates in place are classes (`LRUCache`, `Ring`, `EngineHook`, `Conn`, `TunReader`), loops
are loops with invariants, and each method is proved equal to a function of its inputs and old state about which the
main results are proved. Protocols between goroutines are state machines; a run is a list of enabled steps.
Times are in nanoseconds and activity stamps in milliseconds, rounded down. `Option`, `byte` and `word` are in
`Bytes`.

## Five things the code does not do

These are stated exactly, each with the condition under which the property does hold.

- A `Stop` from the API ends the engine if and only if the spawned `Engine.Start` has already made its
  compare-and-swap; otherwise the engine comes up later with nobody able to stop it through the API
  (`Lifecycle.StopEndsEngineIff`, `Lifecycle.StopBeforeStartOrphansEngine`, `Lifecycle.StoppedIsDisowned`).
- The checksum is RFC 1071's for every input of a given length if and only if that length is at most 131074 octets
  (`ChecksumAlgebra.SafeLengthIsSharp`); beyond, `Checksum.ChecksumMeetsRfc1071Iff` says for which inputs it still is.
- The comment of `ipv6TransportHeader` says that a filter based on it cannot be passed behind extension headers. The
  walk knows only Hop-by-Hop Options (0), Routing (43), Fragment (44) and Destination Options (60), and gives up after
  eight of them; the read loop then lets the packet through. With eight or more such headers an ICMPv6 echo passes
  although ICMP is blocked, and so it does behind a single Authentication Header (51), which the walk takes for an upper
  layer (`TunReadLoop.EchoPassesBehindEight`, `TunReadLoop.OtherProtocolsPass`). Up to seven headers in all, the verdicts
  do not depend on them (`PacketFilter.SpliceKeepsVerdicts`, `TunReadLoop.DecideOfPrint`).
- A FIN passed on stands for a whole stream if and only if the end of stream that caused it was the source's own. A read
  on an end that the program has just closed may report end of stream too, and then `CloseWrite` tells the other side
  that a cut stream is complete (`PipeSafety.StreamFidelity`, `PipeSafety.CutStreamIsPassedOn`).
- Credentials reach the proxy intact if and only if each is at most 255 octets long: the length octet wraps
  (`Socks5Framing.CredentialsArriveIff`).

## Model

| member | source | states |
|---|---|---|
| Checksum.InternetChecksum | go/icmp_reject.go:113-126 | for every input the loops compute the complement of the folded, wrapped word sum, and up to 131074 octets that is the RFC 1071 checksum defined by end-around-carry addition |
| Checksum.AddWords | go/icmp_reject.go:113-121 | the 16-bit loop and the padded odd octet add up all words of the input, modulo 2^32 |
| Checksum.FoldCarries | go/icmp_reject.go:122-124 | the carry loop reaches the folded value, in at most two rounds from any uint32 |
| Checksum.FoldTakesAtMostTwoRounds | go/icmp_reject.go:122-124 | two rounds always suffice |
| Checksum.FoldIsResidue | go/icmp_reject.go:122-125 | folding carries keeps the residue modulo 65535, and yields 0 only for 0 |
| Checksum.OnesSumIsResidue | go/icmp_reject.go:110-126 | RFC 1071's one's-complement addition of words is that same residue of their plain sum |
| Checksum.NoWrap | go/icmp_reject.go:114-121 | within 131074 octets the accumulator never reaches 2^32 |
| Checksum.ChecksumMeetsRfc1071 | go/icmp_reject.go:113-126 | within 131074 octets the wrapping code and RFC 1071 agree |
| Checksum.ChecksumMeetsRfc1071Iff | go/icmp_reject.go:113-126 | for any input whatever, the code agrees with RFC 1071 if and only if the sum did not wrap, or wrapped a multiple of 65535 times and left something |
| ChecksumAlgebra.SafeLengthIsSharp | go/icmp_reject.go:113-126 | all inputs of length n are checksummed correctly if and only if n is at most 131074 |
| ChecksumAlgebra.ChecksumCompletes | go/icmp_reject.go:113-126 | up to 131074 octets, the checksum added to the octets, those at even places counted 256-fold, gives a multiple of 65535, and it is 0xFFFF for all-zero input only |
| ChecksumAlgebra.OnlyOneCompletes | go/icmp_reject.go:113-126 | no other word does, so that determines the checksum of every such input |
| ChecksumAlgebra.WorkedExample | go/icmp_reject.go:110-126 | the example of section 3 of RFC 1071 comes out as printed there |
| ChecksumAlgebra.WordOrderIrrelevant | go/icmp_reject.go:113-126 | inputs with the same multiset of words have the same checksum |
| ChecksumAlgebra.ByteOrderIndependence | go/icmp_reject.go:113-126 | swapping the octets of every word swaps the octets of the checksum |
| ChecksumAlgebra.ChangedWordIsDetected | go/icmp_reject.go:113-126 | replacing one word leaves the checksum unchanged if and only if the word is the same, or 0x0000 and 0xFFFF trade places in a packet with some other non-zero octet |
| ChecksumAlgebra.FilledChecksumVerifies | go/icmp_reject.go:45 | up to 131074 octets, storing the checksum in an even-aligned field that was zero makes the whole checksum to zero |
| Buffers.CopyInto | go/icmp_reject.go:43-46 | an in-place copy changes exactly the octets it covers |
| Buffers.PutUint16 | go/icmp_reject.go:36-45 | an in-place big-endian store changes exactly two octets |
| IcmpReject.BuildICMPv4PortUnreachable | go/icmp_reject.go:16-49 | a reply is built if and only if the packet is long enough for its header length plus 8 and carries UDP, and its octets are the specified reply |
| IcmpReject.BuildICMPv6PortUnreachable | go/icmp_reject.go:56-108 | a reply is built if and only if the packet has 48 octets with UDP right behind the base header, and its octets are the specified reply |
| IcmpReject.PseudoChecksum | go/icmp_reject.go:75-105 | the split summation over addresses, length, protocol and body equals the checksum of the assembled pseudo-header and message |
| IcmpReject.ReplyV4Verifies | go/icmp_reject.go:25-48 | for every header length, the reply's IPv4 header and its ICMP message both checksum to zero |
| IcmpReject.ReplyV6Verifies | go/icmp_reject.go:58-107 | the reply checksums to zero with its pseudo-header, spelled out: addresses, 32-bit length 56, three zeros and 58 |
| IcmpReject.ReplyV4IsFaithful | go/icmp_reject.go:16-49 | the fixed octets are those of an IPv4 header with TTL 64 and an ICMP message of type 3 and code 3, addresses are swapped, the original header and 8 octets are quoted and give the original's verdict for every UDP port, and the reply itself is neither an echo nor UDP |
| IcmpReject.ReplyV6IsFaithful | go/icmp_reject.go:56-108 | the same for IPv6 with hop limit 64, type 1 and code 4: the walk classifies the reply as ICMPv6 at offset 40, and the quoted octets give the original's verdict for every port |
| Ipv6Walker.Ipv6TransportHeader | go/icmp_reject.go:165-199 | the loop returns what the walk function returns, zeroes when it gives up, and reads nothing outside the packet |
| Ipv6Walker.WalkOfPrint | go/icmp_reject.go:165-199 | a packet assembled from any valid extension headers parses to its upper-layer protocol at 40 plus their sizes if there are at most seven, and to nothing otherwise |
| Ipv6Walker.PrintOfDecompose | go/icmp_reject.go:165-199 | every accepted packet is the print of the headers cut out of it |
| Ipv6Walker.AcceptedIffPrinted | go/icmp_reject.go:165-199 | a packet is accepted if and only if some valid packet with at most seven extension headers prints to it |
| Ipv6Walker.PrintIsInjective | go/icmp_reject.go:165-199 | that packet is unique |
| Ipv6Walker.AcceptedOffset | go/icmp_reject.go:165-199 | an accepted offset lies between 40 and the length and is a multiple of 8 |
| Ipv6Walker.WalkOfSplice | go/icmp_reject.go:165-199 | inserting any extension headers into a parseable packet moves the upper layer by their size, up to seven headers in all |
| Ipv6Walker.TrailingBytesIrrelevant | go/icmp_reject.go:165-199 | appended octets change neither protocol nor offset |
| Ipv6Layout.NoExtension | go/icmp_reject.go:190-196 | any next header but 0, 43, 44, 59 and 60 right behind the base header is the upper layer, at 40 |
| Ipv6Layout.NoNextHeader | go/icmp_reject.go:188-189 | next header 59 is refused |
| Ipv6Layout.OneSizedHeader | go/icmp_reject.go:174-181 | behind a header of kind 0, 43 or 60 with length octet l, for every l, the upper layer is found at 40 + 8 * (l + 1) |
| Ipv6Layout.OneFragmentHeader | go/icmp_reject.go:182-187 | behind a Fragment header it is found at 48, whatever that header's octets |
| Ipv6Layout.TruncatedHeader | go/icmp_reject.go:175-196 | a header that claims more octets than the packet has is refused |
| Ipv6Layout.OneMoreHeader | go/icmp_reject.go:165-199 | one more header, spelled out, in front of a parseable packet moves the upper layer by its octets, up to seven headers in all |
| PacketFilter.EchoOfPrint | go/engine.go:324-330 | an assembled packet is stopped as an ICMPv6 echo if and only if it has at most seven extension headers and an ICMPv6 body that is empty or starts with an echo type |
| PacketFilter.UdpPortOfPrint | go/icmp_reject.go:143-152 | an assembled packet matches a UDP port if and only if it has at most seven extension headers and a UDP body of at least 4 octets naming that port |
| PacketFilter.SpliceKeepsVerdicts | go/icmp_reject.go:154-164 | inserted extension headers change neither verdict, for any port, up to seven headers in all, and undo both beyond |
| PacketFilter.TrailingKeepsVerdicts | go/icmp_reject.go:143-152 | appended octets change neither verdict once the octets they read are there |
| Ipv4Layout.DecideOfIpv4 | go/engine.go:295-322 | for every assembled IPv4 packet, header lengths 5 to 15: it is blocked if and only if ICMP is, its protocol is 1 and the message is missing or of type 0, 8, 128 or 129; rejected if and only if QUIC is, its protocol is 17, the sizes suffice and the destination port is 443; answered if 8 octets follow its header; and passed as IPv4 otherwise |
| Ipv4Layout.AnswerToIpv4 | go/icmp_reject.go:16-31 | an assembled packet is answered if and only if it is UDP with 8 octets behind the header, and the reply quotes exactly the header and those |
| Ipv4Layout.DecideOfMalformed | go/engine.go:356-374 | a malformed IPv4 packet is never taken for QUIC, and an ICMP one cut short is blocked |
| Ipv4Layout.OtherVersionsSkipped | go/engine.go:339-341 | packets of any other version are skipped |
| TunReadLoop.TunReader.Handle | go/engine.go:295-347 | one packet is injected, answered and counted, or dropped, exactly as decided |
| TunReadLoop.TunReader.Loop | go/engine.go:267-349 | over any sequence of reads, exactly the passed packets are injected, in order and with their version, exactly the replies to rejected ones are written, rejects are counted, and a self-stop is launched if and only if the device failed while the engine was running |
| TunReadLoop.LiveStops | go/engine.go:270-287 | nothing is handled after the first stop or failure |
| TunReadLoop.LiveGrows | go/engine.go:287-291 | until then every packet is handled but the empty ones |
| TunReadLoop.RepliesAreNotFiltered | go/engine.go:295-342 | every reject reply, fed back under any settings, is passed on as its own IP version |
| TunReadLoop.DecideOfPrint | go/engine.go:324-342 | for assembled IPv6 packets: exactly when they are blocked as echoes, rejected as QUIC, and answered |
| TunReadLoop.EchoPassesBehindEight | go/icmp_reject.go:154-199 | with echoes blocked, an Echo Request behind n Hop-by-Hop headers is blocked if n is at most 7 and passes otherwise |
| TunReadLoop.OtherProtocolsPass | go/icmp_reject.go:165-199 | any other next header, the Authentication Header among them, counts as an upper layer, and the packet passes whatever it carries |
| Recency.WithoutKeeps | go/connection.go:152-167 | removing a key removes that key and no other and keeps keys distinct |
| Recency.WithoutMeans | go/connection.go:152-167 | after a Remove exactly the entries of other keys are held |
| Recency.GetMeans | go/connection.go:105-120 | Get answers with the unexpired entry of its key, puts it first, and drops nothing but an expired entry of its key |
| Recency.AddMeans | go/connection.go:123-149 | Add stores its outcome, expiring ttl later, in place of any entry of its key, and drops nothing else unless the key is new and the cache full: then the last entry |
| Recency.OperationsKeepWellformed | go/connection.go:105-159 | Get, Add and Remove keep keys distinct and the length at most max(capacity, 0) |
| RecencyRuns.ExecWellformed | go/connection.go:105-174 | so does every run of operations |
| RecencyRuns.OrderedByLastTouch | go/connection.go:105-149 | after any run the entries are in strictly decreasing order of the last Add or successful Get of their key |
| RecencyRuns.EvictsLeastRecentlyTouched | go/connection.go:139-148 | an Add to a full cache drops exactly the key whose last touch is oldest and keeps all others in order |
| RecencyRuns.EntriesComeFromAdds | go/connection.go:105-149 | every entry is what the last Add of its key stored, expiring ttl after that Add, with no removal since |
| LinkedRing.Ring.Remove | go/connection.go:163-167 | relinking two neighbours takes exactly one element out of the circle |
| LinkedRing.Ring.PushFront | go/connection.go:137-138 | a new element becomes the first of the circle |
| LinkedRing.Ring.MoveToFront | go/connection.go:118 | an element becomes first and the others keep their order |
| LinkedRing.Ring.SetResult | go/connection.go:129-133 | an entry is overwritten through its element and nothing else changes |
| LinkedRing.Ring.Back | go/connection.go:142-145 | the last element, or none when the ring is empty |
| LruCache.LRUCache.constructor | go/connection.go:95-102 | a new cache is empty and agrees with the empty run |
| LruCache.LRUCache.Get | go/connection.go:105-120 | the map and ring move as the recency list does: a hit touches, an expired entry is dropped, and the result is the stored one |
| LruCache.LRUCache.Add | go/connection.go:123-149 | the map and ring become those of the recency list after the same Add, eviction included |
| LruCache.LRUCache.Remove | go/connection.go:152-159 | likewise for Remove |
| LruCache.LRUCache.RemoveElement | go/connection.go:163-167 | an element leaves the map and the ring together |
| LruCache.LRUCache.EvictOverflow | go/connection.go:140-148 | the last entry goes if and only if the length exceeds max(capacity, 0) |
| LruCache.LRUCache.Len | go/connection.go:170-174 | the ring's counter is the number of map entries and at most max(capacity, 0) |
| LruCache.Locate | go/connection.go:105-112 | a key is in the map if and only if it is in the recency list, and the map leads to its element |
| LruCache.CacheSize | go/connection.go:81-88 | map and ring have the same size |
| EngineHook.EngineHook.constructor | go/engine_hook.go:43-51 | a new hook has an empty cache, no validator, and the TTL in seconds |
| EngineHook.EngineHook.SetValidator | go/engine_hook.go:54-58 | installs the validator and leaves the cache alone |
| EngineHook.EngineHook.Validate | go/engine_hook.go:61-93 | it allows if and only if an unexpired entry of exactly this key does, or there is none and a validator is set and says yes; the uid is the entry's, or -1; and the cache is the one specified |
| EngineHook.MissIsRemembered | go/engine_hook.go:79-92 | after a miss that the validator answered, the cache holds that answer under the key, expiring ttl later, and nothing else under it |
| EngineHook.SecondCallRepeats | go/engine_hook.go:61-93 | so a second call of the same key within ttl hits, and answers what the validator answered |
| EngineHook.OtherCallsStoreNothing | go/engine_hook.go:64-77 | a hit, or a miss without a validator, stores nothing and drops only an expired entry of its key |
| EngineHook.KeysEqualIff | go/connection.go:34-42 | two calls share a key if and only if ports and protocol are equal and the addresses name the same hosts, an IPv4 address being the same as its 16-octet form |
| EngineHook.EngineHook.Invalidate | go/engine_hook.go:96-98 | removes exactly the entry of that 5-tuple |
| HookInclusion.KeysOfValidate | go/engine_hook.go:61-93 | with a validator set, Validate makes its key the first and truncates to capacity, whether it hit, missed or found an expired entry |
| HookInclusion.SmallerCacheIsPrefix | go/engine_hook.go:61-98 | two hooks given the same calls keep the smaller one's key order a prefix of the larger one's, whatever their TTLs, clocks and answers |
| HookProtocol.StepKeepsInv | go/engine_hook.go:61-98 | every interleaved step keeps each verdict justified |
| HookProtocol.HitIsFresh | go/connection.go:105-120 | a hit repeats the last Add of its key, made less than ttl earlier; earlier hits do not extend it |
| HookProtocol.VerdictsAreExactAndFresh | go/engine_hook.go:61-93 | in every concurrent run a verdict was decided by one step of its own call: a load of the validator when none was installed, an Add of this call's own answer for its own arguments, or a Get that hit what an Add stored of a callback's answer for the identical key less than ttl before that Get, unchanged since |
| HookProtocol.TrackedFlowsWereAllowed | go/engine.go:599-676 | every tracked TCP or UDP flow has an allowing verdict: its own call's answer was yes, or its Get hit a yes stored for exactly its 5-tuple less than ttl before |
| HookProtocol.HitFollowsStore | go/engine_hook.go:61-98 | in every concurrent run a hit repeats what an earlier step stored for the identical key less than ttl before, with no Invalidate of that key and no other store for it in between |
| HookProtocol.NextGetHits | go/engine_hook.go:61-93 | a stored answer is used: the next cache operation, if a Get of the same key within ttl, hits with that answer |
| HookProtocol.OwnAnswerIsCurrent | go/engine_hook.go:71-92 | an own answer was given by the validator that was installed when this very call loaded it |
| UdpCodec.EncodeUDPDatagram | go/socks5.go:163-182 | filling the buffer gives the specified datagram |
| UdpCodec.DecodeOfEncode | go/socks5.go:163-213 | decoding an encoding returns the canonical address, the port and the payload if and only if the address has 4 or 16 octets and the port is 16 bits |
| UdpCodec.EncodeOfDecode | go/socks5.go:163-213 | encoding a decoding is the identity if and only if RSV is zero and the address is not an IPv4-mapped one sent as IPv6 |
| UdpCodec.EncodedOctets | go/socks5.go:163-182 | an encoded datagram, octet by octet: zero RSV and FRAG, ATYP 1 or 4, address, big-endian port, payload |
| UdpCodec.DecodedOctets | go/socks5.go:185-213 | exactly which datagrams decode, to which octets, and why the others are refused |
| UdpRelay.RelayToApp | go/engine.go:732-759 | while writes succeed, the app gets exactly the decoded payloads of the datagrams that came from the relay and decode, in order |
| UdpRelay.AppToRelay | go/engine.go:712-729 | the relay gets the encoding of each packet read, in order, until the first failure |
| UdpRelay.ForeignDatagramsAreInvisible | go/engine.go:742-749 | a datagram with no sender, another port, or an address that is neither the relay's nor its IPv4 or 16-octet form, anywhere in the sequence, changes nothing the app receives |
| UdpRelay.MalformedDatagramsAreInvisible | go/engine.go:750-754 | nor does one that does not decode |
| UdpRelay.GenuineDatagramsAreDelivered | go/engine.go:732-759 | one from the relay that decodes is delivered, in its place |
| UdpRelay.NothingAfterFailure | go/engine.go:738-741 | nothing is delivered once a read has failed |
| Addresses.SameCanonicalIff | go/engine.go:747 | comparing canonical forms is comparing as net.IP.Equal does, spelled out octet by octet |
| UdpRelay.HonestRepliesAreDelivered | go/engine.go:732-759 | encoded replies that fit the MTU, sent by the relay, reach the app whole and in order |
| UdpRelay.RequestsDecode | go/engine.go:712-729 | the proxy decodes each request to the flow's destination and the packet, cut to the MTU |
| UdpRelay.EveryPacketIsRequested | go/engine.go:712-729 | there are as many requests as packets read before the first failure |
| Socks5.Conn.ReadFull | go/socks5.go:225-227 | io.ReadFull over arbitrary chunks takes exactly n octets off the stream, or fails when there are fewer |
| Socks5.Client.Handshake | go/socks5.go:218-248 | success, the exact error, the octets consumed and the octets sent, for every stream and every write budget |
| Socks5.Client.AuthUserPass | go/socks5.go:251-277 | one write of the credentials message, then exactly the reply's two octets |
| Socks5.Client.ReadSocksAddress | go/socks5.go:314-361 | the bind address of the reply, consumed to its last octet, or the exact error |
| Socks5.Client.SendConnect | go/socks5.go:280-310 | an unparsable destination sends nothing; otherwise one request and exactly one reply |
| Socks5.Client.DialTCP | go/socks5.go:37-71 | succeeds if and only if the destination is an address and the whole exchange does, leaving the stream right behind the reply; a failed handshake is reported as such and no request follows it |
| Socks5.Client.UDPAssociate | go/socks5.go:94-156 | the same for UDP ASSOCIATE, returning the relay address of the reply |
| Socks5Framing.ReplyOfPrint | go/socks5.go:314-361 | a printed reply with an IPv4, IPv6 or name address followed by anything parses to its address, and the rest is what followed |
| Socks5Framing.ReplyWasPrinted | go/socks5.go:314-361 | every accepted reply is the print of the address it parses to |
| Socks5Framing.ClientStopsAtPayload | go/socks5.go:218-361 | with authentication and three writes to spend, or without and two, a well-formed server stream leaves the client at the first payload octet |
| Socks5Framing.SucceedsIffWellFormed | go/socks5.go:218-361 | for every number of writes that succeed, the exchange does if and only if the server's stream is well-formed and the writes suffice for its method |
| Socks5Framing.CredentialsArriveIff | go/socks5.go:251-263 | a server reads the credentials back if and only if both are at most 255 octets |
| Socks5Framing.ServerReadsClient | go/socks5.go:218-310 | all octets the client sends read back as methods, credentials and destination, with nothing left over |
| Socks5Framing.ConnectArrives | go/socks5.go:280-303 | the CONNECT request reads back as the canonical destination and port |
| Socks5Framing.AssociateArrives | go/socks5.go:113-125 | the ASSOCIATE request reads back as loopback and the bound port |
| Socks5Framing.MethodRefusals | go/socks5.go:225-247 | which method selections are accepted, and the error for each other one |
| Socks5Framing.AuthRefusals | go/socks5.go:264-276 | the same for the sub-negotiation |
| Socks5Framing.ReplyRefusals | go/socks5.go:314-350 | the same for replies |
| IdleVerdict.CondemnedIff | go/engine.go:116-130 | a flow is condemned if and only if both directions were silent for 5 minutes, or for 2 with the app's stamp the later |
| IdleVerdict.CondemnationLasts | go/engine.go:116-130 | a condemned flow is condemned all the more at a later time, and had the proxy's stamp been earlier |
| IdleVerdict.KeptMeansRecent | go/engine.go:116-130 | a kept flow has a stamp less than 5 minutes old |
| PipeSafety.StepKeepsInv | go/engine.go:764-837 | every step of either pipe, of the waiting goroutine, of the clock and of an outside close keeps the safety invariant |
| PipeSafety.StreamFidelity | go/engine.go:796-832 | in every run what a pipe wrote is a prefix of what it read and that of its source; CloseWrite is issued only after every octet read was written, and that is the whole stream if and only if the end of stream was the source's own, which it is if the end was not closed by the program when the pipe read it |
| PipeSafety.CutStreamIsPassedOn | go/engine.go:458-480 | for every unread upload there is a run in which an outside close is followed by an end of stream and a successful CloseWrite with nothing delivered |
| PipeSafety.HalfCloseLosesNothing | go/engine.go:791-827 | while no error, outside close or expiry has happened, a pipe that ended delivered its whole stream and its FIN, and the ends stay open for the other direction until both pipes are done |
| PipeSafety.FaultIff | go/engine.go:803-829 | a run has a fault if and only if an end was closed from outside, a read broke or a write or CloseWrite failed on an open end, or a verdict expired |
| PipeSafety.TornDownOnce | go/engine.go:770-779 | shutdown closes each end at most once on every run, and pipeConnections returns only with both pipes finished and both ends closed exactly once |
| PipeVerdicts.JudgementBegan | go/engine.go:814 | a verdict under way sampled the clock before it loaded either stamp |
| PipeVerdicts.VerdictReads | go/engine.go:814 | a judgement is the idle verdict on a clock read in one state, the app's stamp loaded in a later one and the proxy's in a still later one, and it closes the flow if and only if that verdict says so, zombie or not |
| PipeVerdicts.KillHasAnInstant | go/engine.go:116-130 | a kill has an instant between its reads at which an undivided verdict on the stored stamps would have condemned the flow as well |
| PipeVerdicts.NoFalseKill | go/engine.go:812-830 | an expired verdict rests on one clock reading with nothing but its own two loads after it; by that reading all stamps stored until then by the app's side, and until the verdict by the proxy's, were at least 2 minutes old, and at least 5 unless the app's side had been active last |
| PipeVerdicts.CondemnedIffInactive | go/engine.go:116-130 | in every reachable state the undivided verdict condemns if and only if no stamp is under 2 minutes old, nor under 5 with the proxy's side active last |
| PipeVerdicts.ActiveFlowsSurvive | go/engine.go:812-830 | in every run, a flow recently active in that sense in every state is never closed by the idle verdict |
| PipeVerdicts.ExpiredStaysExpired | go/engine.go:812-830 | once the flow is condemned, every judgement begun later closes it, unless a stamp was stored in between |
| PipeActivity.ReadsAreStamped | go/engine.go:803-805 | in every run, once a pipe that has read octets has got past storing its stamp, the other one sees a stamp no older than that read |
| PipeActivity.ReadingFlowsSurvive | go/engine.go:803-818 | a flow of which octets are read and stamped at gaps below 2 minutes, or below 5 by the proxy's side with no request since, is never closed by the idle verdict |
| PipeActivity.BusyFlowsSurvive | go/engine.go:801-818 | with prompt steps the reads alone decide: one side reading octets at gaps below 2 minutes keeps the flow |
| PipeActivity.JudgementsAreSpaced | go/engine.go:801-818 | a pipe looks at the idle verdict at most once in 30 seconds |
| PipeActivity.WritesHaveFiveMinutes | go/engine.go:806-807 | every pending write has a deadline 5 minutes after it was issued |
| PipeTiming.StepIsPunctual | go/engine.go:801-830 | every pending read deadline is at most the last activity plus 5 minutes and 30 seconds |
| PipeTiming.DeadFlowsEnd | go/engine.go:796-837 | if steps are prompt and nothing is stamped after t, then past t plus 5 minutes 30 seconds both pipes are finished and pipeConnections has returned, also with a write blocked or one side half-closed |
| PipeActivity.SilentFlowsEnd | go/engine.go:796-837 | the same in terms of octets: if steps are prompt and neither side reads an octet after t, then past t plus 5 minutes 30 seconds both pipes are finished, both ends closed and pipeConnections has returned |
| PipeTiming.TimeIsNeverStuck | go/engine.go:764-837 | in every state the invariant allows before the return, a prompt step the program owes, or a moment to wait for, exists |
| PipeProgress.StepWorks | go/engine.go:796-832 | every step of a pipe or of the waiting goroutine, however a read or write turns out, uses up some of a fixed amount of work |
| PipeProgress.InstantsAreFinite | go/engine.go:796-837 | while the clock stands still, any run of such steps is no longer than the work at its start |
| PipeProgress.SomePromptRunReturns | go/engine.go:764-837 | from every state that the safety and timing invariants allow, some prompt run ends with pipeConnections returned, so promptness can always be kept up until then |
| BufferPool.StepKeepsInv | go/engine.go:797-808 | every Get, read, write and Put of any pipe keeps buffers exclusively owned and unwritten octets intact |
| BufferPool.BuffersAreExclusive | go/engine.go:797-800 | buffers of live pipes are pairwise distinct and absent from the pool |
| BufferPool.NoStrayOctets | go/engine.go:797-811 | a pipe writes only octets it read itself, in order, whatever other connections do with the pool |
| BufferPool.NoBufferIsLost | go/engine.go:32-37 | in every run each buffer made has 32 KB and is free, held, or taken by the collector |
| UdpSlots.StepKeepsInv | go/engine.go:211-217 | every step keeps the counter equal to live handlers plus refusals in progress |
| UdpSlots.CapHolds | go/engine.go:211-217 | however admissions and exits interleave, at most 512 handlers live and the counter is never negative |
| UdpSlots.RefusedIff | go/engine.go:211-217 | an admission is refused if and only if live handlers and refusals in progress hold all slots |
| UdpSlots.RefusedOnlyWhenFull | go/engine.go:195-218 | with one callback at a time, a flow is refused if and only if 512 handlers are live |
| Lifecycle.StepKeepsInv | go/engine.go:244-265 | every step of API calls, starts, loops and stops keeps two conservation laws per engine: started equals running plus being closed plus closed, and an engine is the API's or was handed to exactly one API Stop |
| Lifecycle.ClosedAtMostOnce | go/engine.go:415-421 | in every run stopCh is closed at most once, is open while the engine runs, and an engine's only Start never finds it running |
| Lifecycle.OwnedOnce | go/teapod_tun2socks.go:69-80 | no engine is ever handed to two API Stops |
| Lifecycle.StopEndsEngineIff | go/engine.go:415-418 | after a Stop's compare-and-swap the engine can still come to run if and only if the spawned Start has not made its own |
| Lifecycle.StoppedIsDisowned | go/teapod_tun2socks.go:69-80 | an engine handed to an API Stop is out of the API's reach for ever |
| Lifecycle.StopBeforeStartOrphansEngine | go/teapod_tun2socks.go:57-80 | the run Start, Stop, lost compare-and-swap, late Start leaves an engine running that the API does not hold |
| Lifecycle.FailureLeadsToStop | go/engine.go:279-288 | in every run, an engine that still runs after its read loop failed has a Stop pending whose compare-and-swap wins and ends it for good |
| Lifecycle.ServingMeansLaunched | go/engine.go:250-264 | a Start that waits for its channel has launched both loops, the write loop has not left while the engine runs, and Start returns only after the channel was closed |
| Lifecycle.NothingReadAfterStop | go/engine.go:267-278 | once a Stop that won has returned, its engine never takes another packet from the TUN device, even if its read loop is launched later |

## Left out

- gVisor, the TUN descriptor, real sockets, name resolution, dialing and deadline system calls: connections are byte streams and events of the environment.
- Logging, `StatsLine`, `Diagnostics`, byte counters, `itoa`, `ConnectionKey.String`, getters and the Kotlin layer: formatting or plumbing.
- Clocks, validator answers, chunk sizes, read and write errors are parameters or free choices of the environment; the clock never goes back, and a read never returns zero octets without an error.
- IdleVerdict.CondemnationLasts: int64 milliseconds are unbounded integers here, as are the nanosecond deadlines.
- EngineHook.EngineHook.constructor: does not model int64 overflow of the TTL in seconds times one second.
- EngineHook.EngineHook.Validate: the logging and the hook's log switch are left out, and the argument the application calls port stays a 16-bit word; concurrent use is HookProtocol's subject.
- LinkedRing.Ring.Remove: the element is not reset to null pointers afterwards as container/list does, because nothing reads it again; an element and its cache entry are one object.
- LruCache.LRUCache.Get: the mutex is not modelled in the class; each operation is one step of HookProtocol instead.
- HookInclusion.SmallerCacheIsPrefix: not claimed for raw Get and Add runs, a missing validator or concurrent Validates, where it need not hold.
- HookProtocol.VerdictsAreExactAndFresh: does not say that Invalidate overtakes a Validate already waiting for its answer; it does not.
- Addresses are octet strings in net.IP's canonical form, so keys compare as their printed text does; text parsing of addresses is the caller's `Option<IP>` in DialTCP and SendConnect.
- Socks5.Client.UDPAssociate: the reply's address is kept as a value; the host:port text between ReadSocksAddress and the resolver, which has no brackets for IPv6, is not part of this model.
- Ipv6Walker.WalkOfPrint: the Fragment header is a plain 8-octet header and fragment offsets have no meaning, as in the walk itself.
- IcmpReject.BuildICMPv6PortUnreachable: the branches for a body shorter than 48 octets or of odd length cannot be reached behind the length check and are omitted.
- TunReadLoop.TunReader.Handle: a failed write of a reply is ignored by the program, so the model records the attempt.
- The `isIPv6` branch of `shouldBlockICMP` has no caller.
- PipeSafety.StreamFidelity: panics, recover and tracking maps are left out; `CloseAllConnections` is the outside close of the app's end.
- PipeSafety.CutStreamIsPassedOn: whether gVisor reports end of stream or an error on a closed end is not part of this model; every result of a read, write or CloseWrite on a closed end is allowed.
- PipeTiming.DeadFlowsEnd: assumes that runnable steps are taken before the clock moves and that expired deadlines fire on time, and that calls on a closed end return at once; without that no bound can hold.
- BufferPool.NoStrayOctets: buffers are taken whole; the per-processor caches inside sync.Pool are one multiset from which the collector may drop buffers.
- UdpRelay.RelayToApp: the two relay loops are modelled one at a time; the once-only close that ties them to the control connection, and the 60 second idle deadline, are read failures here.
- UdpSlots.CapHolds: the atomic counter is an unbounded integer and its steps are values of a state machine, not fields of an object.
- Lifecycle.NothingReadAfterStop: cancelling the context and closing stopCh are one step, the write loop is only its exit, and whether waiting for the loops ends is up to the TUN device.
- Lifecycle.StopEndsEngineIff: a failing NewEngine changes nothing and is left out.

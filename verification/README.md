# Verification model of the SASE data plane and its control-plane state machines

This Dafny project models the parts of the repository whose correctness depends on state kept over a whole run, and
proves what they are meant to guarantee.

* **SD-WAN datagram tunnel** (`Bytes`, `Replay`, `Frame`, `Xor`, `Fec`, `FecRecovery`, `Session`, `SessionRuns`,
  `FecEndToEnd`, `FecAnyOrder`). Frames, the 64-bit replay window (the mechanism of section 3.4.3 of RFC 4303), XOR error
  correction, and the session that composes them under an AEAD (nonces as in section 2.8 of RFC 8439). The AEAD is
  ideal: opening succeeds on exactly the (nonce, header, ciphertext) triples that were emitted under the key. The
  network may drop, repeat, reorder, alter and forge.
* **Tunnel router** (`Lpm`, `Packet`, `RouterTables`, `Router`, `RouterHandle`). A radix trie on the heap against the
  linear longest-prefix scan it replaces (section 5.1 of RFC 4632), the three tables under registration, removal and
  subnet updates, and packet forwarding interleaved with them.
* **Stream multiplexer** (`MuxFrames`, `MuxStreams`, `MuxTable`, `MuxSystem`, `MuxChannels`, `MuxSteps`, `MuxRuns`,
  `MuxGap`). The frame codec over a byte stream cut anywhere, one stream's queue, partial reads, half-close and reset, the stream
  table, and two ends whose streams interleave in every order.
* **Policy** (`Names`, `Compiler`, `Pep`). Validation, conflict detection and canonical order, then first-match
  decisions.
* **ZTNA terminator** (`TerminatorState`, `Terminator`, `TerminatorRuns`). Session tables, flow verdict cache,
  deadlines and revocation.
* **Risk engine** (`Risk`), **token bucket** (`RateLimit`), **xDS subscription ledger** (`XdsLedger`, `XdsRuns`).

`Sequences` holds what several of them say about taking an element out of a list.

Objects that the source updates in place are classes whose methods are proved against functions on values; the
properties of whole runs are proved about those functions. A session or entry object stands for a pointer; on values
the type parameter `E` does.

What the definitions underneath mean is stated a second time in other terms: which bit of an address a prefix looks at
as a number, which bytes a frame or packet field stands in, which rule comes first field by field, which of two lengths
Read takes. The results above them are stated in these terms where a reader would otherwise have to trust a definition.

Some things the source or its comments suggest do not hold. The model follows the code, and each comes with a failing
run and with the exact condition or, for the token bucket, with the bound that does hold:

* A live site is not always in the router's address table: removal deletes by address without looking at the owner
  (`RouterTables.AlwaysIndexedExactly`, `RemovalByAddressOrphans`).
* A rebuilt trie depends on the order of registration as soon as two sites announce one prefix: the later entry of the
  list wins (`RouterTables.OrderFreeExactly`, `OrderDecidesTie`).
* Two revocations of one critical period can name the same session, when it comes back after another
  (`Risk.FiresDistinctExactly`, `SameSessionFiresTwice`).
* Closing the last stream of a tenant does not keep its resources out of the caches: a reconciliation that noted the
  tenant before may load it afterwards (`XdsRuns.LeftoverExactly`, `ReconcileLeavesExactly`, `LateReloadRevives`).
* Read can report the end of a stream although bytes sent before CLOSE were never read, when the stream is shut between
  its first check and its loop (`MuxRuns.EndExactly`, `MuxGap.EndMissesBytes`).
* A token bucket allows more calls in an interval than burst + rate * length when a call is processed after one with a
  later reading of the clock; the excess is what the delay is worth (`RateLimit.IntervalBound`, `StaleReadingExceeds`).
* The subscription ledger counts correctly exactly as long as no stream is opened under an id that still holds tenants
  (`XdsRuns.LedgerExactly`, `ReusedIdMiscounts`). The gRPC library hands out each id once, so this is an assumption on
  it rather than a fault.

Check everything with `dafny verify dfyconfig.toml`.

## Model

| member | source | states |
|---|---|---|
| Frame.HeaderBytes | internal/dptunnel/frame.go:41-49 | Fills the 8 header bytes in place: version, type, big-endian block id, index, block size. |
| Frame.MakeDataBody | internal/dptunnel/frame.go:76-82 | Fills a data body in place: counter, ciphertext length, ciphertext. |
| Frame.ParseMarshal | internal/dptunnel/frame.go:51-73 | Parsing a marshalled frame gives the frame back, for every type, block id, index, block size and body. |
| Frame.MarshalParse | internal/dptunnel/frame.go:51-73 | The other direction: bytes that parse are the marshalling of what they parse to, so the parser accepts nothing else. |
| Frame.ParsePaddedDataBody | internal/dptunnel/frame.go:76-95 | A data body followed by any padding still parses to its counter and ciphertext; this is what recovery relies on. |
| Frame.DataBodyPrefix | internal/dptunnel/frame.go:85-95 | The counter and ciphertext a body parses to are a data body it starts with. |
| Frame.FrameLayout | internal/dptunnel/frame.go:41-49 | The bytes of a frame one by one: version 1, type 0 for data and 1 for parity, the block id in bytes 2 to 5, index, block size, body. |
| Frame.BodyLayout | internal/dptunnel/frame.go:76-82 | The bytes of a data body: the counter in eight, the length of the ciphertext in two, the ciphertext. |
| Frame.Refusals | internal/dptunnel/frame.go:56-95 | Which bytes are refused and with which error: too short, another version, another type, shorter than the length they state. |
| Replay.ReplayWindow.Accept | internal/dptunnel/replay.go:15-46 | The in-place window: answer and new state are those of the specification on last, bitmap and seen. |
| Replay.OfferRefines | internal/dptunnel/replay.go:15-46 | One step of the 64-bit bitmap answers as a set of accepted counters does, and represents the new set. |
| Replay.WindowRefinesSet | internal/dptunnel/replay.go:15-46 | Over every run, with arbitrary jumps: bit i is set exactly when last-i was accepted, and the next counter is refused exactly when it was accepted before or an accepted one is 64 or more ahead of it. |
| Replay.AcceptsMeaning | internal/dptunnel/replay.go:15-46 | The answer in terms of the state: anything at first, later anything ahead of the last counter, and behind it only what is less than 64 behind with its bit clear. |
| Xor.XorInto | internal/dptunnel/fec.go:46-56 | The in-place loop with growth computes the zero-padded XOR of the two buffers. |
| Xor.XorRest | internal/dptunnel/fec.go:159-164 | XOR of the parity with all bodies of a map, for any iteration order of the map. |
| Xor.XorAllInsert | internal/dptunnel/fec.go:24-32 | Adding one body to a block XORs it into the parity, wherever in the block it stands. |
| Xor.XorPadAt | internal/dptunnel/fec.go:46-56 | What the padded XOR is, binary digit by binary digit where both buffers reach, and the longer buffer's own bytes beyond. |
| Xor.Recovery | internal/dptunnel/fec.go:159-167 | The parity of a block XOR all bodies but one is the missing body, zero-padded to the parity length, for bodies of different lengths. |
| Fec.FecEncoder.Peek | internal/dptunnel/fec.go:20-22 | The slot the next body will take, with no state changed. |
| Fec.FecEncoder.Add | internal/dptunnel/fec.go:25-33 | Accumulates a body and reports the end of a block. |
| Fec.FecEncoder.SealParity | internal/dptunnel/fec.go:36-43 | Hands out the parity and moves to the next block number, modulo 2^32. |
| Fec.FecDecoder.GetBlock | internal/dptunnel/fec.go:84-101 | Finds or makes the block, refuses one outside the window or of another size, and evicts. |
| Fec.FecDecoder.Evict | internal/dptunnel/fec.go:104-119 | Drops what left the window, then the lowest blocks while there are more than the cap. |
| Fec.FecDecoder.LowestBlock | internal/dptunnel/fec.go:111-116 | The lowest block number, for any iteration order. |
| Fec.FecDecoder.Recover | internal/dptunnel/fec.go:142-168 | Recovers exactly when the parity is there and one body is missing, and then forgets the block. |
| Fec.FecDecoder.FeedData | internal/dptunnel/fec.go:122-129 | Stores a body and tries to recover: result and new table are those of the specification. |
| Fec.FecDecoder.FeedParity | internal/dptunnel/fec.go:132-140 | Stores the parity and tries to recover. |
| Fec.CapNeverFires | internal/dptunnel/fec.go:70-119 | After the window rule at most 65 blocks are left, so the hard cap of 256 never removes one. |
| Fec.FetchBlocks | internal/dptunnel/fec.go:84-119 | What fetching a block leaves in the table, block by block. |
| Fec.OtherSizeRefused | internal/dptunnel/fec.go:84-91 | A data or parity frame with another block size than the open block has changes nothing and recovers nothing. |
| Fec.TooOldRefused | internal/dptunnel/fec.go:84-87 | Neither does one of a block more than 64 behind the newest. |
| Fec.DataStored | internal/dptunnel/fec.go:122-129 | Any other data frame is stored in its block, which is kept, or recovered from and deleted; blocks of the window are otherwise as before. |
| Fec.ParityStored | internal/dptunnel/fec.go:132-140 | Any other parity frame becomes the parity of its block, with the same outcome. |
| FecRecovery.AnyOrderRecovery | internal/dptunnel/fec.go:122-168 | The parity and all but one body, in any order, with frames of other blocks fed in between and, once the block is open, frames under its own number with another block size: exactly one recovery, of the right index, with the missing body zero-padded. |
| FecRecovery.RecoveredBodyParses | internal/dptunnel/frame.go:85-95 | The recovered body parses to the counter and ciphertext of the lost frame. |
| Session.NonceInjective | internal/dptunnel/session.go:52-57 | Nonces of different (direction, counter) pairs differ. |
| Session.NonceLayout | internal/dptunnel/session.go:52-57 | The nonce byte by byte: the direction, three zeros, the counter big-endian. |
| Session.NotSealed | internal/dptunnel/session.go:61-80 | Exactly when a plaintext is not sealed: the counter has come to 2^48, or the ciphertext has more than 65535 bytes. |
| Session.SealedAlone | internal/dptunnel/session.go:61-97 | Without error correction: one frame, with the counter modulo 2^32 as its block number, whose body is the ciphertext under that header and nonce, and the counter goes up by one. |
| Session.SealedInBlock | internal/dptunnel/session.go:61-97 | With error correction: the frame takes the next place in the block, and the one that fills it is followed by the parity of the bodies, under the block size as its index. |
| Session.OpenFails | internal/dptunnel/session.go:101-105 | A datagram is an error exactly when it is no frame, and then changes nothing. |
| Session.OwnPacketFirst | internal/dptunnel/session.go:106-131 | A data frame brings its own packet first and a recovered one after it; a parity frame at most a recovered one. |
| Session.Session.constructor | internal/dptunnel/session.go:39-50 | Two different directions, counter 0, empty window and decoder. |
| Session.Session.Seal | internal/dptunnel/session.go:61-97 | Frames, counter, encoder and emitted set after sealing; on the rekey threshold or an oversize ciphertext nothing changes. |
| Session.Session.OpenAndAccept | internal/dptunnel/session.go:143-156 | Delivers a body exactly when it authenticates and the window accepts its counter. |
| Session.Session.AppendRecovered | internal/dptunnel/session.go:134-140 | A recovered body goes through the same authentication and window under the rebuilt header. |
| Session.Session.Open | internal/dptunnel/session.go:101-131 | Result and new receiver state for any datagram, parity and malformed ones included. |
| SessionRuns.SessionSafety | internal/dptunnel/session.go:101-156 | Two mirrored ends, any datagrams in any order: every delivered plaintext is the one the peer sealed under that counter, and no counter is delivered twice, recovered frames included. |
| SessionRuns.DeliveredAmongSent | internal/dptunnel/session.go:101-156 | As multisets, what was delivered is contained in what was sent. |
| SessionRuns.FreshFrameDelivered | internal/dptunnel/session.go:101-131 | After any run a data frame of the peer is delivered on arrival exactly when its counter was not delivered before and no delivered one is 64 or more ahead of it. |
| SessionRuns.NoncesNeverRepeat | internal/dptunnel/session.go:61-97 | No two data frames of a run, of either direction, carry the same nonce, and counters stay below 2^48; failing calls included. |
| FecEndToEnd.FecRepairsExactly | internal/dptunnel/session.go:61-140 | In-order delivery with at most one data frame lost per block and 2 <= K <= 255: exactly which plaintexts come out, a lost one unless K-1-index is 64 or more. |
| FecEndToEnd.FecComplete | internal/dptunnel/replay.go:34-44 | Up to K = 64 every sealed plaintext is delivered exactly once. |
| FecEndToEnd.FirstLostBeyondWindow | internal/dptunnel/replay.go:34-38 | Above 64 the repair fails: the first plaintext of a block is lost for good with its frame. |
| FecAnyOrder.AnyOrderDelivery | internal/dptunnel/session.go:101-140 | In any run, with the parity and all other data frames of a block arriving in any order among anything else, forged frames of another block size under its number included: the last of them brings the lost plaintext exactly when its counter is less than 64 behind every counter accepted by then. |
| FecAnyOrder.DecoderRuns | internal/dptunnel/session.go:101-131 | The session feeds its decoder a data body exactly when the window took its counter, every parity, and nothing else. |
| FecAnyOrder.RunKeepsOne | internal/dptunnel/session.go:61-97 | In every run one record at most is emitted per nonce, under any header. |
| Lpm.LpmTrie.Insert | internal/dptunnel/lpm.go:44-58 | The heap trie stands for its prefixes with this one added, last insert winning; a key of the wrong width or length changes nothing. |
| Lpm.LpmTrie.Grow | internal/dptunnel/lpm.go:49-55 | One step of the insertion walk: the child is there afterwards and no other node changed. |
| Lpm.LpmTrie.LongestPrefix | internal/dptunnel/lpm.go:65-84 | The walk returns the entry of the longest inserted prefix of the key, null when there is none. |
| Lpm.BitMeaning | internal/dptunnel/lpm.go:90-92 | Bit i of an address as a number: the binary digit of weight 2^(8n - 1 - i), most significant first. |
| Lpm.CoversIsInNet | internal/dptunnel/lpm.go:65-84 | A prefix covers an address exactly when both, as numbers and divided by 2^(bits - ones), are equal. |
| Lpm.ScanIsLongest | internal/dptunnel/lpm.go:8-11 | The linear scan the trie replaces, with covering said in numbers: a longest covering prefix, the last inserted of its length, and none exactly when none covers. |
| Lpm.TrieRefinesScan | internal/dptunnel/lpm.go:8-11 | The longest prefix in the table of any inserted prefixes is the result of scanning them, for every address. |
| Lpm.Lookup | internal/dptunnel/lpm.go:44-84 | Any sequence of inserts into a new trie and one lookup: the value of the longest inserted subnet that the address is in, the last of its length, with membership said in numbers. |
| TunnelRouter.Router.Register | internal/dptunnel/router.go:90-98 | The three tables after a registration that replaces the site, with the tries rebuilt to match. |
| TunnelRouter.Router.Deregister | internal/dptunnel/router.go:101-105 | The three tables after a removal. |
| TunnelRouter.Router.RemoveLocked | internal/dptunnel/router.go:108-118 | Removes the first entry of that site from the list, and whatever its address leads to from the address table. |
| TunnelRouter.Router.UpdateCIDRs | internal/dptunnel/router.go:129-140 | Only the subnets of the entry change: every session object and its send counter stay as they are. |
| TunnelRouter.Router.RebuildRoutes | internal/dptunnel/router.go:146-167 | The tries of the tenant match its list again; no table changes. |
| TunnelRouter.Router.Route | internal/dptunnel/router.go:228-239 | The trie lookup returns what a longest-prefix scan of the tenant's announced subnets in the family of the destination returns. |
| RouterTables.RunTablesAgree | internal/dptunnel/router.go:90-140 | After any run of registrations, removals and updates: one entry per (tenant, site), and no address leads to a removed or another site. |
| RouterTables.RegisterIndexedExactly | internal/dptunnel/router.go:90-98 | A registration keeps every live site reachable by its address exactly when no other live site has that address. |
| RouterTables.AlwaysIndexedExactly | internal/dptunnel/router.go:107-118 | Every live site stays in the address table throughout a run exactly when each registration uses an address no other live site has. |
| RouterTables.RemovalByAddressOrphans | internal/dptunnel/router.go:112 | The failing case: removing a site deletes the address entry of the live site that shares its address; traffic is still routed to it. |
| RouterTables.OrderFreeExactly | internal/dptunnel/router.go:142-167 | The rebuilt trie of a family is the same for every order of the tenant's list exactly when no two different entries announce a usable prefix with the same leading bits. |
| RouterTables.OrderDecidesTie | internal/dptunnel/lpm.go:36-37 | The failing case: two sites with one subnet, and its traffic goes to whichever registered last. |
| RouterTables.TrieAt | internal/dptunnel/lpm.go:34-58 | After a rebuild the trie holds the announced prefixes, each leading to the last entry of the list that announces it. |
| RouterTables.RoutedIsListed | internal/dptunnel/router.go:226-239 | A route leads to a live entry of the same tenant. |
| RouterTables.RouteIsLongest | internal/dptunnel/router.go:226-239 | A destination is routed exactly when some site of the tenant announces a subnet of its family that it is in, by number, and then to a site with a longest such subnet. |
| RouterTables.FamilyMeaning | internal/dptunnel/router.go:226-239 | Which addresses count as IPv4: four bytes, or sixteen that begin with the twelve of the mapped prefix. |
| RouterTables.PrefixIsAnnounced | internal/dptunnel/router.go:142-167 | The tries of a tenant are built from its announced subnets, each in the family of its mask and with its own site. |
| RouterTables.RegisterMeaning | internal/dptunnel/router.go:90-98 | Registering adds one entry at the end of its tenant's list and under its address, drops the site's former entry, and leaves every other entry as it was. |
| RouterTables.RemoveMeaning | internal/dptunnel/router.go:108-118 | Removing takes exactly the entry of that tenant and site and the address it had. |
| RouterTables.RemoveKeepsOrder | internal/dptunnel/router.go:108-118 | The rest of the list keeps its order. |
| RouterTables.UpdateMeaning | internal/dptunnel/router.go:129-140 | An update changes the subnets of that site and nothing else. |
| RouterTables.UpdateTakesEffect | internal/dptunnel/router.go:129-140 | The same of an update at the end of any run. |
| RouterTables.OneEntryPerSite | internal/dptunnel/router.go:108-118 | The search for a site finds its only entry. |
| RouterHandle.TenantIsolation | internal/dptunnel/router.go:177-224 | Handle calls interleaved with table changes between their lock sections: what a call forwards came out of its source's own session, passed the firewall of that tenant, was routed by bytes 16 to 19 (IPv4) or 24 to 39 (IPv6) of the packet to another entry of that tenant, live at the routing step, and was sealed in a later step by that entry's session. |
| RouterHandle.SourceIsFound | internal/dptunnel/router.go:177-191 | A datagram goes on exactly when its address leads to an entry, and with that entry. |
| RouterHandle.FoundIsOpened | internal/dptunnel/router.go:192-198 | Every plaintext that the source's session delivers is forwarded, in order. |
| RouterHandle.NextIsRouted | internal/dptunnel/router.go:198-213 | The other direction of isolation: a packet gets a target exactly when it is an IP packet, the firewall lets it through, and its destination leads to an entry of the tenant other than the source. |
| RouterHandle.NextIsSealed | internal/dptunnel/router.go:214-223 | A routed packet goes out in the frames its target's session makes of it, and only that session changes. |
| Packet.AddressFields | internal/dptunnel/router.go:247-270 | Which packets parse, and that source, destination and protocol are those at their places in the IPv4 and IPv6 headers. |
| Packet.PortFields | internal/dptunnel/router.go:259-276 | The ports of TCP and UDP when the packet reaches that far, and 0 otherwise. |
| MuxFrames.Conn.WriteFrame | internal/revtunnel/stream.go:120-139 | A frame is added to the wire, or nothing when the payload is too large, or the part of it that a breaking connection still takes. |
| MuxFrames.ChunkReader.ReadFull | internal/revtunnel/stream.go:147 | Exactly n bytes however the stream is cut into reads, or failure when it ends before. |
| MuxFrames.ReadLoop | internal/revtunnel/stream.go:143-165 | The frames dispatched are those of the byte stream, for every way it is split into reads; an oversize or cut frame ends the loop. |
| MuxFrames.DecodeEncodeAll | internal/revtunnel/stream.go:120-165 | Any list of frames that fit, written whole, decodes to exactly that list in order. |
| MuxFrames.DecodePrefix | internal/revtunnel/stream.go:143-165 | Wherever the connection breaks, what was dispatched is a prefix of what was written. |
| MuxFrames.DecodeCutFirst | internal/revtunnel/stream.go:120-165 | Frames written onto a connection that breaks: the peer decodes those that went through whole. |
| MuxFrames.FrameLayout | internal/revtunnel/stream.go:120-139 | The bytes of a frame: type, stream id, length, payload; OPEN, DATA, CLOSE and RST are 1 to 4. |
| MuxFrames.PayloadLimit | internal/revtunnel/stream.go:120-155 | Payloads up to 65536 bytes fit; a longer announced one ends the decoding. |
| MuxFrames.Transport | internal/revtunnel/stream.go:120-165 | Frames written, split anyhow and read back are the same frames. |
| MuxStreams.StreamObject.DeliverChunk | internal/revtunnel/stream.go:280-290 | A chunk joins the queue, or is dropped when empty or, possibly, when the stream is shut. |
| MuxStreams.StreamObject.OnRemoteClose | internal/revtunnel/stream.go:293-304 | Marks the end and leaves a sentinel when the queue has room. |
| MuxStreams.StreamObject.OnShutdown | internal/revtunnel/stream.go:323-333 | The first cause stays. |
| MuxStreams.StreamObject.StartRead | internal/revtunnel/stream.go:337-349 | The first lock section of Read: as many leftover bytes as fit the buffer, the smaller of the two lengths, the rest kept; else the error of a shut stream, or on to the loop. |
| MuxStreams.StreamObject.SelectRead | internal/revtunnel/stream.go:351-383 | One select of the loop: on a shut stream either the error or the queue; of a chunk as many bytes as fit the buffer are returned and its rest kept, a sentinel leads to the end check. |
| MuxStreams.StreamObject.CheckEnd | internal/revtunnel/stream.go:365-374 | The lock section after a sentinel: the end exactly when the peer has closed and the queue is empty. |
| MuxStreams.StreamObject.ReadInto | internal/revtunnel/stream.go:336-384 | A Read that nothing interrupts: it returns the first bytes waiting, at least one into a non-empty buffer, and loses none; it fails exactly when the stream was shut with nothing left over, and it ends or waits only with every byte read. |
| MuxStreams.StreamObject.Write | internal/revtunnel/stream.go:387-414 | The bytes go out in order in DATA frames of at most 65536 bytes as far as the connection takes them; the count returned is of the bytes the peer decodes, and a failing frame shuts the stream. |
| MuxStreams.DeliverUnread | internal/revtunnel/stream.go:280-290 | A delivered chunk waits behind everything received before it, or is dropped as a whole, which only a shut stream does. |
| MuxStreams.ReadStartUnread | internal/revtunnel/stream.go:337-349 | The first section takes bytes off the front, loses none, and leaves no rest behind when it goes on to the loop. |
| MuxStreams.ReadRoundUnread | internal/revtunnel/stream.go:351-383 | So does each select of the loop, whichever case it takes. |
| MuxStreams.ReadEndUnread | internal/revtunnel/stream.go:365-374 | The end is reported only after the peer has closed and with nothing left to read. |
| MuxStreams.ReadsSome | internal/revtunnel/stream.go:336-384 | A section of Read that returns bytes fills the buffer or uses up the chunk: it returns at least one byte. |
| MuxStreams.ReadsDrain | internal/revtunnel/stream.go:336-384 | However small the buffer, as many Reads as there are bytes waiting return all of them, in order. |
| MuxStreams.DeliverNoEmpty | internal/revtunnel/stream.go:280-290 | No empty chunk is ever queued. |
| MuxStreams.QueueMeaning | internal/revtunnel/stream.go:262-304 | On a stream that is not shut deliver waits exactly when 64 chunks are queued, and the sentinel is queued exactly when there is room. |
| MuxStreams.FirstCauseStays | internal/revtunnel/stream.go:323-333 | A second shutdown changes nothing, and the first changes nothing but the cause. |
| MuxStreams.ChunksOf | internal/revtunnel/stream.go:400-411 | The frames of a Write are non-empty, fit, and are the written bytes when put together. |
| MuxTable.MuxConn.OpenStream | internal/revtunnel/stream.go:100-117 | A fresh stream under the next id, modulo 2^32, with its OPEN on the wire, or none; the id is unused as long as the ids have not wrapped. |
| MuxTable.MuxConn.Dispatch | internal/revtunnel/stream.go:168-197 | OPEN makes a stream on the accepting side; any other frame acts on the listed stream of its id and on nothing else. |
| MuxTable.MuxConn.CloseStream | internal/revtunnel/stream.go:417-429 | One CLOSE however often it is called; the stream leaves the table once both ends have closed. |
| MuxTable.MuxConn.ResetStream | internal/revtunnel/stream.go:432-440 | One RST unless the stream is shut, which it is afterwards. |
| MuxTable.MuxConn.WriteStream | internal/revtunnel/stream.go:387-414 | Count, error, bytes on the wire and stream as Write leaves them; a stream whose frame failed leaves the table. |
| MuxTable.MuxConn.CloseAll | internal/revtunnel/stream.go:226-243 | Every listed stream is shut with the cause; a second call changes nothing. |
| MuxRuns.StreamsAreFifo | internal/revtunnel/stream.go:280-429 | For every interleaving on both ends: bytes read, bytes waiting, bytes in flight and bytes still held by Write are together what Write accepted, until the stream is shut or reaped; a reaped stream has had everything sent before CLOSE. |
| MuxRuns.NothingOvertakesOpen | internal/revtunnel/stream.go:168-187 | Until the connector has seen OPEN, OPEN is the first frame of its stream on the wire and all data wait behind it. |
| MuxRuns.EndOnlyAfterEverything | internal/revtunnel/stream.go:336-384 | A stream that is not shut when Read returns reports the end only after the peer has sent CLOSE and every byte written before it has been read. |
| MuxRuns.EndExactly | internal/revtunnel/stream.go:280-384 | Shut or not: when Read reports the end, everything kept by the peer's CLOSE has been read, and that is all that was sent before CLOSE exactly when deliver had dropped no chunk by then; with no Write going on past CLOSE the same condition decides whether everything accepted was read. |
| MuxRuns.ReadReturnsBytes | internal/revtunnel/stream.go:336-384 | In every run a Read with a byte waiting where it looks, left over or in the chunk at the head, returns the first bytes of it, as many as fit, at least one into a non-empty buffer. |
| MuxSystem.WriteGoesOut | internal/revtunnel/stream.go:387-414 | The write steps of the two-ended system, left to themselves, put out the frames that Write cuts its bytes into. |
| MuxSystem.OpenIsSteps | internal/revtunnel/stream.go:100-117 | The two steps of an open: the next id, and OPEN written with the stream listed, or the stream dropped again. |
| MuxSystem.CloseIsSteps | internal/revtunnel/stream.go:417-429 | The three steps of a close: CLOSE written, and the stream unlisted once the peer has closed too. |
| MuxSystem.ResetIsSteps | internal/revtunnel/stream.go:432-440 | The three steps of a reset: RST written, the stream shut and unlisted. |
| MuxSystem.FrameActs | internal/revtunnel/stream.go:168-197 | What an arriving DATA, CLOSE or RST does to its stream, and that it touches nothing else. |
| MuxSystem.DispatchIsSteps | internal/revtunnel/stream.go:168-197 | CLOSE and RST with the removal that may follow. |
| MuxGap.EndMissesBytes | internal/revtunnel/stream.go:323-384 | The failing case: a stream shut after the first check of Read loses its only byte, and Read reports the end. |
| MuxRuns.NoDataLost | internal/revtunnel/stream.go:168-197 | A DATA frame that arrives at an open mux finds its stream listed, or shut, or closed by its peer with everything before CLOSE received. |
| MuxRuns.ReceiveTouchesOwnStream | internal/revtunnel/stream.go:168-197 | A frame changes the stream of its own id and no other stream, on either end. |
| MuxRuns.WireDecodes | internal/revtunnel/stream.go:120-165 | In every run the bytes of the wire decode to exactly the frames in flight. |
| Names.Transitive | internal/policy/compiler/compiler.go:122-142 | String order is transitive; with totality and irreflexivity it makes the rule order total. |
| Names.LessMeaning | internal/policy/compiler/compiler.go:122-142 | One string is before another exactly when it is a proper prefix of it or smaller at the first difference. |
| Compiler.RuleLessTotal | internal/policy/compiler/compiler.go:122-142 | Any two different rules are ordered one way and not the other. |
| Compiler.RuleLessTransitive | internal/policy/compiler/compiler.go:122-142 | The rule order is transitive over all six fields. |
| Compiler.SortRules | internal/policy/compiler/compiler.go:122-142 | Sorting in place gives the same rules in ascending order: by priority and, within one, by resource, kind, value, action and effect, each said by itself. |
| Compiler.OrderedAscends | internal/policy/compiler/compiler.go:122-142 | A list in the rule order ascends in priority and, within one priority, field by field. |
| Compiler.AscendsExactly | internal/policy/compiler/compiler.go:122-142 | The rule order is that comparison and no other, in both directions. |
| Compiler.OrderUnique | internal/policy/compiler/compiler.go:120-142 | A list of rules has one ordered arrangement only, so neither the algorithm nor its stability matters. |
| Compiler.FirstConflict | internal/policy/compiler/compiler.go:88-101 | The pass over seen effects finds the first rule that conflicts with an earlier one. |
| Compiler.Compile | internal/policy/compiler/compiler.go:58-118 | Rejects exactly when a field is invalid or two policies share subject, resource and action but differ in effect, naming the first offender; otherwise the policies' rules ascending in priority and within it field by field, and their hash. |
| Compiler.ValidMeaning | internal/policy/compiler/compiler.go:61-79 | The values that effect, subject kind, risk level, resource and action may take. |
| Compiler.FieldMeaning | internal/policy/compiler/compiler.go:61-79 | The field a rejection names is the first one at fault. |
| Compiler.ConflictMeaning | internal/policy/compiler/compiler.go:88-101 | Two rules conflict when their effects differ and nothing but priority and effect tells them apart. |
| Compiler.OrderIndependent | internal/policy/compiler/compiler.go:58-142 | For any permutation of the policies the same verdict and the same rule list. |
| Pep.DecideIsLeastMatch | internal/pop/pep/pep.go:18-60 | On compiled rules Decide returns the effect of a matching policy whose priority number is at most that of every matching policy, ties settled by resource, kind, value, action and effect in that order, and deny when none matches. |
| Pep.SomeLeastMatch | internal/pop/pep/pep.go:18-36 | When any policy matches there is a least match, so the two cases cover every request. |
| Pep.ScanIsFirstMatch | internal/pop/pep/pep.go:18-36 | The decision on a bundle is the effect of its first matching rule, deny without one. |
| Pep.DecideLetsThrough | internal/pop/pep/pep.go:18-36 | A request is let through exactly when the tenant has a bundle whose first matching rule is not a deny. |
| Pep.MatchMeaning | internal/pop/pep/pep.go:18-36 | A rule applies to its own resource, and to its own action unless rule or request leaves that open. |
| Pep.SubjectMeaning | internal/pop/pep/pep.go:38-60 | Which claims a rule catches, by its kind; an unknown kind catches none. |
| Pep.RiskMeaning | internal/pop/pep/pep.go:38-60 | A risk_gte rule catches its own level and those above it. |
| Pep.DecideOrderIndependent | internal/pop/pep/pep.go:18-36 | Authoring order never changes a decision. |
| ZtnaTerminator.Terminator.OnEstablished | internal/pop/ztnaterm/terminator.go:155-185 | Registers a fresh session with its deadline, replacing the address and dropping the old session's return routes; refuses a tenant mismatch. |
| ZtnaTerminator.Terminator.DropInner | internal/pop/ztnaterm/terminator.go:230-238 | Removes the return routes that still point at the session, for any iteration order. |
| ZtnaTerminator.Terminator.EvictSession | internal/pop/ztnaterm/dataplane.go:251-264 | Removes the session and its return routes unless the address has another session by now. |
| ZtnaTerminator.Terminator.LearnInnerIP | internal/pop/ztnaterm/dataplane.go:186-210 | The latest session to show an inner address gets its return traffic. |
| ZtnaTerminator.Terminator.DecideOn | internal/pop/ztnaterm/dataplane.go:161-183 | Revocation first, which evicts; then the policy decision. |
| ZtnaTerminator.Terminator.DecideFlow | internal/pop/ztnaterm/dataplane.go:109-151 | The cached verdict while it lasts, else application lookup, revocation, policy, and a verdict cached for 30 seconds. |
| ZtnaTerminator.Terminator.ForwardInner | internal/pop/ztnaterm/dataplane.go:84-103 | Outcome and new tables for one inner packet. |
| ZtnaTerminator.Terminator.HandleDatagram | internal/pop/ztnaterm/dataplane.go:60-81 | Outcomes and new tables for one datagram. |
| ZtnaTerminator.Terminator.EvictRevokedOf | internal/pop/ztnaterm/dataplane.go:269-291 | All sessions of the tenant with a revoked credential go, picked first and evicted one by one. |
| ZtnaTerminator.Terminator.SweepExpired | internal/pop/ztnaterm/dataplane.go:295-315 | All sessions at or past their deadline go, and their number is returned. |
| TerminatorRuns.WritesAreJustified | internal/pop/ztnaterm/dataplane.go:60-183 | Every packet written to the TUN in any run: its session was registered after its credential was verified, for the same tenant and not revoked, in the same handshake; the time is before the deadline fixed then, and less than 30 s earlier its destination resolved in the session's own tenant, the credential was not revoked, and the tenant had a bundle whose first rule matching the claims, the application and "connect" had an effect other than deny. |
| TerminatorRuns.NewFlowIsDecided | internal/pop/ztnaterm/dataplane.go:60-183 | The converse, in any run: a packet of a live session without a live verdict, with a destination that resolves and a credential not revoked, is written when the first matching rule of the bundle is not a deny, and dropped when it is or none matches. |
| TerminatorRuns.FlowDecision | internal/pop/ztnaterm/dataplane.go:109-183 | One decision in full: a verdict holds until it expires; then no application, a revoked credential, which evicts, or the policy's answer, stored for 30 seconds. |
| TerminatorRuns.PepAllowsMeaning | internal/pop/ztnaterm/dataplane.go:161-183 | What the policy enforcement point answers, said by the first matching rule. |
| TerminatorRuns.ReplacementIsComplete | internal/pop/ztnaterm/terminator.go:155-185 | In any run a session that takes another's address takes all of it: no return route leads to the old one. |
| TerminatorRuns.LearnMeaning | internal/pop/ztnaterm/dataplane.go:186-210 | An inner address shown by a session for the first time leads to it, whoever had it before; one shown again changes nothing. |
| TerminatorRuns.ExpiredIsEvicted | internal/pop/ztnaterm/dataplane.go:60-81 | In any run a datagram at or past the deadline is dropped and its session is gone. |
| TerminatorRuns.SweepExactly | internal/pop/ztnaterm/dataplane.go:295-315 | In any run a sweep leaves exactly the sessions whose deadline is ahead. |
| TerminatorRuns.EvictRevokedExactly | internal/pop/ztnaterm/dataplane.go:269-291 | In any run EvictRevoked leaves exactly the sessions of other tenants and those not revoked. |
| TerminatorRuns.ProxiedExactly | internal/pop/ztnaterm/redirect.go:96-135 | In any run a connection to the proxy evicts the session it comes from when that is past its deadline or, with an application found, its credential is revoked; otherwise it changes nothing. |
| TerminatorRuns.ConfigIsLatest | internal/pop/ztnaterm/dataplane.go:161-183 | Decisions go by the bundle and the revocations set last. |
| TerminatorRuns.CapMeaning | internal/pop/ztnaterm/terminator.go:97-100 | A terminator set up without a cap has one hour. |
| TerminatorRuns.DeadlineIsMinimum | internal/pop/ztnaterm/terminator.go:188-198 | The deadline is the smaller of credential expiry and cap, the cap alone without an expiry. |
| TerminatorRuns.RevocationIsFinal | internal/pop/ztnaterm/dataplane.go:251-291 | After EvictRevoked for a revoked credential, and while it stays revoked, no session holding it writes to the TUN, registered late or not. |
| TerminatorRuns.SessionsWereVerified | internal/pop/ztnaterm/terminator.go:139-185 | Every session of a run was registered at the end of a handshake in which its claims had verified for its tenant and were not revoked. |
| TerminatorRuns.ShakesVerified | internal/pop/ztnaterm/terminator.go:139-151 | A handshake goes on only with claims that verified in it. |
| TerminatorRuns.RevokedMayRegister | internal/pop/ztnaterm/terminator.go:139-185 | A revocation between verification and the end of the handshake does not stop the registration; RevocationIsFinal covers that session. |
| TerminatorRuns.EvictionIsComplete | internal/pop/ztnaterm/dataplane.go:251-264 | In every reachable state eviction removes exactly that session's address and all its return routes. |
| TerminatorRuns.EvictAllStep | internal/pop/ztnaterm/dataplane.go:287-290 | Evicting a set of sessions is evicting them one by one in any order. |
| TerminatorState.FirstRuleCanon | internal/pop/ztnaterm/appresolver.go:81-92 | Addresses that share a flow key resolve to the same application. |
| TerminatorState.CanonMeaning | internal/pop/ztnaterm/parse.go:55-65 | The key form of an address: the last four bytes of a mapped one, any other as it is. |
| TerminatorState.KeyMeaning | internal/pop/ztnaterm/parse.go:55-65 | Two packets share a cached verdict exactly when protocol, ports and both addresses agree, a mapped address counting as its IPv4 form. |
| TerminatorState.RuleCoversMeaning | internal/pop/ztnaterm/appresolver.go:74-92 | The destinations a rule covers, in numbers: those that agree with its subnet in the leading bits, in their common family, on its port or any. |
| TerminatorState.FirstRuleMeaning | internal/pop/ztnaterm/appresolver.go:74-92 | An application is found exactly when a rule of the tenant covers the destination, and it is that of the first such rule. |
| Risk.AssessLocked | internal/risk/service.go:102-120 | The loop over the factor map gives the clamped sum of the unexpired weights and collects the expired, for every iteration order. |
| Risk.LevelMeaning | internal/risk/risk.go:37-48 | Critical from 85, high from 60, medium from 30. |
| Risk.SignalScores | internal/risk/service.go:135-156 | What one signal scores: 90 for non-compliance until revised; 50, 25 or 10 for a finding by severity, for 30 minutes. |
| Risk.SumWithout | internal/risk/service.go:106-113 | The sum of weights does not depend on the order of summation. |
| Risk.Service.Observe | internal/risk/service.go:56-98 | New state, assessment, and whether the callback runs and for which session. |
| Risk.FiresExactly | internal/risk/service.go:77-86 | The callback runs exactly on a critical signal about a known session when there was no signal before, the one before was not critical, or another session was known then; never with an empty jti. |
| Risk.CurrentSessionIsFired | internal/risk/service.go:77-86 | After every critical signal the known session is the one the callback was last given. |
| Risk.FiresDistinctExactly | internal/risk/service.go:38-42 | Within a critical period all callbacks name different sessions exactly when no session comes back after another took its place. |
| Risk.SameSessionFiresTwice | internal/risk/service.go:77-86 | The failing case: signals about sessions a, b, a run the callback for a twice. |
| Risk.ScoreIsCappedSum | internal/risk/service.go:114-118 | In reachable states the score is the sum of unexpired weights, at most 100. |
| Risk.NonCompliantIsCritical | internal/risk/service.go:135-143 | A non-compliant posture is critical whatever else is known. |
| Risk.TwoHighFindingsAreCritical | internal/risk/service.go:147-156 | High-severity findings of two rules within 30 minutes are critical together. |
| Risk.OneRuleIsNeverCritical | internal/risk/service.go:147-156 | Findings of one rule replace each other: alone they are never critical, however many. |
| Risk.CompliantClears | internal/risk/service.go:135-143 | A compliant report leaves no posture factor. |
| Risk.SubjectsIndependent | internal/risk/service.go:56-63 | In a run over many subjects each one is as if its signals were the only ones. |
| RateLimit.Limiter.AllowKey | internal/ratelimit/ratelimit.go:34-56 | Answer and bucket after one call. |
| RateLimit.Limiter.DropIdle | internal/ratelimit/ratelimit.go:59-68 | Exactly the buckets idle for longer than idle go, for any iteration order. |
| RateLimit.IntervalBound | internal/ratelimit/ratelimit.go:34-68 | With readings of the clock processed at most d behind the latest one and (idle - d) * rate >= burst: for every key and interval at most burst + rate * (t2 - t1 + d) calls are allowed, the janitor running; d = 0 is the order of the readings. |
| RateLimit.BoundWithoutJanitor | internal/ratelimit/ratelimit.go:34-56 | Without the janitor the same bound holds for every d. |
| RateLimit.AllowSpends | internal/ratelimit/ratelimit.go:43-55 | An allowed call costs its own key one token and nobody else anything. |
| RateLimit.BurstExactly | internal/ratelimit/ratelimit.go:34-56 | Of n calls at one moment under a new key, call number n passes exactly when n is at most the burst. |
| RateLimit.WaitRestores | internal/ratelimit/ratelimit.go:34-56 | After any run in order, a call after a wait passes exactly when the burst is at least one and what was left plus rate times the wait is. |
| RateLimit.JanitorInvisible | internal/ratelimit/ratelimit.go:59-68 | With readings at most d behind and (idle - d) * rate >= burst a run gives the same answers with the janitor as with the limiter that never cleans up. |
| RateLimit.JanitorVisible | internal/ratelimit/ratelimit.go:59-68 | With (idle - d) * rate < burst and a burst of at least one token there is a run, with readings at most d behind, in which the janitor changes an answer. |
| RateLimit.JanitorInvisibleExactly | internal/ratelimit/ratelimit.go:59-68 | For every d the janitor changes no answer of any run with readings at most d behind exactly when (idle - d) * rate >= burst or the burst is below one token. |
| RateLimit.StaleReadingExceeds | internal/ratelimit/ratelimit.go:34-37 | Without d in it the bound fails: a run with one stale reading in which more than burst + rate * (t2 - t1) calls are allowed. |
| XdsLedger.Server.OnStreamOpen | internal/xds/server.go:102-106 | A new identity with nothing subscribed, under the stream id. |
| XdsLedger.Server.OnStreamClosed | internal/xds/server.go:112-128 | Reference counts and caches after the stream's tenants are released, for any iteration order. |
| XdsLedger.Server.EvictTenant | internal/xds/server.go:154-160 | The tenant leaves all six caches and nothing else does. |
| XdsLedger.Server.EnsureAuth | internal/xds/server.go:132-138 | The stream's identity, made without a certificate when it was never opened. |
| XdsLedger.Server.RecordRef | internal/xds/server.go:142-150 | The type is named, and a tenant new to the stream is counted once. |
| XdsLedger.Server.OnRequest | internal/xds/server.go:172-217 | Verdict and ledger after a request: an empty one is an acknowledgement, names are granted one by one up to the first refusal. |
| XdsLedger.Server.SnapshotTenants | internal/xds/server.go:244-249 | The tenants with references, noted under the lock. |
| XdsLedger.Server.ReloadAll | internal/xds/server.go:251-258 | Reloads all six types of the tenants noted, whatever has become of their references. |
| XdsLedger.TenantNames | internal/xds/server.go:489-495 | A resource name stands for a tenant exactly when it was made from it; the wildcard stands for none. |
| XdsRuns.LedgerExactly | internal/xds/server.go:102-150 | At every point of a run tenantRefs[t] is the number of open streams holding t and absent when that is 0, exactly when no stream is opened under an id that still holds tenants. |
| XdsRuns.OpenKeepsExactly | internal/xds/server.go:102-106 | Opening keeps the ledger exactly when the id holds no tenants. |
| XdsRuns.DeviceHoldsOwnTenant | internal/xds/subauth.go:45-61 | In every run a device stream holds at most its certificate's tenant, and in strict mode a stream without a role holds none. |
| XdsRuns.GrantExactly | internal/xds/subauth.go:45-61 | Which subscriptions are granted: all to a PoP, to a device exactly those of its own tenant, to a stream without a role exactly when the mode is not strict; a refusal changes nothing. |
| XdsRuns.DeviceGetsOwnTenant | internal/xds/subauth.go:45-61 | In every run a device's request for its own tenant is granted. |
| XdsRuns.RequestExactly | internal/xds/server.go:190-217 | The names of a request up to the first that the stream's role does not allow are granted and no others, and it is accepted exactly when there is none. |
| XdsRuns.IdentityStays | internal/xds/server.go:102-106 | In every run a stream keeps the role and tenant of the certificate it was opened with until it is closed or opened again. |
| XdsRuns.UnopenedHasNoRole | internal/xds/server.go:132-138 | A stream that was never opened has no role. |
| XdsRuns.NoWildcard | internal/xds/server.go:177-188 | An empty request is accepted exactly when the same stream was granted a subscription of that type by name since it was opened. |
| XdsRuns.CloseEvictsExactly | internal/xds/server.go:112-128 | Closing empties the caches of exactly the tenants whose only holder it was. |
| XdsRuns.LeftoverExactly | internal/xds/server.go:108-128 | A cache holds a resource of a tenant without a subscriber exactly when a notification or a reconciliation put it there at such a moment and no subscriber has come since; closing itself leaves none behind. |
| XdsRuns.ReconcileHeldAtSnapshot | internal/xds/server.go:243-262 | What a reconciliation adds belongs to a tenant that had a subscriber when the round began. |
| XdsRuns.ReconcileLeavesExactly | internal/xds/server.go:243-262 | At a load of the round the tenant is without a subscriber exactly when its last one closed in between and none came back. |
| XdsRuns.LateReloadRevives | internal/xds/server.go:108-128 | The failing case: closing between the note and the load leaves the resource in its cache without a subscriber. |
| XdsRuns.ReusedIdMiscounts | internal/xds/server.go:102-106 | The failing case: opening a second stream under the id of one that holds a tenant breaks the count. |
| XdsRuns.RequestIsSteps | internal/xds/server.go:190-217 | A request, refused part-way or not, is a run of single-name steps. |

## Left out

- Real cryptography: ChaCha20-Poly1305, SM4-GCM, signatures and key export are replaced by the ideal AEAD and by the
  verifier's result as a parameter.
- Session.Session.Seal: an oversize ciphertext is not added to the ideal AEAD's table although the cipher was called
  for it; its counter is used again for the next packet. The claim about nonces is about emitted frames.
- FEC with K above 255: the block size travels in one byte; the end-to-end results are for K up to 255.
- FecEndToEnd.FecComplete: at most one data frame is lost per block and all else arrives in order, as the design
  promises. `FecAnyOrder.AnyOrderDelivery` is about one block and any order; lost parities are covered by the safety
  results only.
- FecAnyOrder.AnyOrderDelivery: parity frames are not authenticated in the source, so the block's own parity is taken to
  arrive unaltered and once, and no parity of its block size is forged; frames of another size under its number may
  come once the block is open. No frame of a block more than 64 ahead has been fed before.
- RouterHandle.TenantIsolation: Handle is a step machine on values, because the source gives up its lock between the
  steps; sharing of one session object by several entries is not modelled there.
- MuxRuns.StreamsAreFifo: one writer and one reader per stream; CLOSE, reset and the end of the mux may come at any
  moment. That the end of stream is delivered at all is not stated: the sentinel is dropped when the queue is full,
  and a second Read after the end blocks.
- MuxRuns.NoDataLost: for fewer than 2^32 opens, as the results of `MuxRuns` are; the wrap of the stream id is
  modelled in `MuxTable.MuxConn.OpenStream` only.
- TerminatorRuns.WritesAreJustified: each handler call is one step with one reading of the clock; a failing TUN write
  counts as a write.
- TerminatorRuns.EvictionIsComplete: about eviction itself; later packets of the same datagram of an evicted session
  may add a return route again, as in the source.
- The return pump of the terminator, which checks no deadline, and the outbound leg of the transparent proxy; of the
  proxy only the evictions it can cause are modelled.
- A revocation store that is absent is modelled as one that stays empty.
- XdsRuns.LedgerExactly: a stream counts as open until its references are released, which the source does right after
  taking it out of the stream table; requests of one stream come one after the other and before that.
- RateLimit.IntervalBound: the source puts no limit on how long a call may wait for the lock after it has read the
  clock; the bound is in terms of the longest such delay, d.
- RateLimit: tokens and times are reals, without rounding.
- Risk: the optional snapshot store, and the separate clock readings within one observation.
- Error texts, logging, metrics and drop counters.
- Sockets, TUN devices, goroutine scheduling below the level of lock sections, gRPC, HTTP, SQL and the web console.
- linkmon, swg, dlp, fw and other single-branch checks without state.

# Byte streams and frames of the audio players

A Dafny model of the machinery that moves encoded audio and call audio through the players in
`apps/audioplayers`, and proofs of what it keeps. The codecs themselves are not modelled.

- **A2DP.** Packets reach the input queue (`CQueues`, `AacQueues`, `LhdcStores`), LHDC ones after
  reassembly from numbered fragments (`LhdcAssembly`, and `LhdcLosses` for what loss does; the flag masks
  are those of `a2dp_decoder/a2dp_decoder_lhdc.cpp:45-48`). The main processor copies queue bytes into a
  ring (`InCaches`), from which the coprocessor loads packets (`Framing`, `Loaders`) and decodes into
  three slots that the main processor plays. Ring and slots are used by both processors without locks:
  `RingProtocol` and `DecodeSlots` take every interleaving of their single steps, and `Deliveries`
  puts the loaders on top.
- **mSBC over SCO.** The uplink framer (`MsbcUplink`), the downlink reframer (`MsbcDownlink`,
  `DownlinkRuns`), the packet-loss detector with its checksum (`PacketLoss`, `PacketRuns`, `Crc`), and
  the two ends joined (`MsbcEndToEnd`). The header is the H2 synchronization header of section 5.7 of
  HFP 1.6; frame and checksum are those of appendix B of the A2DP specification.
- **Call audio.** The upsampling filter with carried history (`UpFir`), the echo frame ring
  (`EchoQueues`), the removal of the reference channel (`ChannelSplits`), and the pipeline over two
  processors (`ScoPipelines`).
- **Streams and prompts.** The list of what waits to be played (`AudioLists`).

Where the source updates an object in place, the model is a class whose methods are proved against
functions on values; what the source promises is proved about those functions. Where two processors
share memory without locks, the model is a state machine whose events are their single reads, writes
and copies, taken as sequentially consistent. `Rings`, `Blocks` and `Bytes` hold what several modules need.

What the code does differently from what one would expect is stated as it is:

- A slot's state is read twice (`a2dpplay.cpp:2691` and `2709`). A slot that becomes done in between is
  released unplayed (`DecodeSlots.DroppedInBetween`, `DroppedRun`).
- A slot left partly filled is resumed with the length of a whole slot (`a2dpplay.cpp:2545`). It never
  becomes playable (`PlayedWhen`), and the pass can run over into the next slot (`OverrunWrites`). What is
  played is what was decoded for every finish whose slot no such pass ran into (`ReleasedInOrder`);
  `SpoiledRun` is a run in which one does, and the slot is played with a foreign sample.
- A gap of a multiple of 256 fragments does not show in the LHDC sequence numbers. It does harm only when
  it begins inside a packet being collected. Delivery is exact for all other losses
  (`LhdcLosses.SurvivorsDelivered`), nothing is mixed exactly without such a gap (`MixesExactly`), and with
  one that is followed by the next last fragment the delivery is wrong (`HiddenGapSpoils`,
  `HiddenGapInsideSpoils`); `UnluckyLoss` is an example.
- The transmitter-offset check looks at the padding byte that the mute and repeat checks skip. Locked
  at offset one, with an expected offset of zero and a mute pattern of 0x55, that byte of the last frame
  of a call is the buffer's spare byte, and the frame is rejected (`OffByOneLosesFrames`).
- The recovery in the audio list that should keep the front entry needs a block when the pool has none
  (`RecoveryRefused`), and closing a stream at the tail can take a prompt off (`TailMayBePrompt`).
- The queue's AAC loader throws a header away before it knows that its packet is there (`AacPartial`).
  Whole packets in the queue keep that from mattering (`QueueIsFifo`).

## Model

| member | source | states |
|---|---|---|
| Crc.TableDrivenIsBitSerial | apps/audioplayers/plc_utils.c:34-57 | for every start value and byte sequence, the checksum from the lookup table is the bit-serial CRC-8 with polynomial 0x1D |
| Crc.TableIsShift8 | apps/audioplayers/plc_utils.c:34-57 | every entry of the 256-entry table is its index shifted eight times through the polynomial |
| Crc.LookupFeedsByte | apps/audioplayers/plc_utils.c:94-105 | one table lookup feeds the eight bits of a byte, highest first |
| Crc.ChecksumLinear | apps/audioplayers/plc_utils.c:93-129 | the checksum of the xor of two messages is the xor of their checksums |
| Crc.OneByteChangeDetected | apps/audioplayers/plc_utils.c:93-129 | changing any one covered byte changes the checksum |
| Crc.TableLinear | apps/audioplayers/plc_utils.c:34-57 | the table is linear over xor |
| Crc.TableInjective | apps/audioplayers/plc_utils.c:34-57 | no two table entries are equal |
| PacketLoss.ParserAcceptsValidFrames | apps/audioplayers/plc_utils.c:60-132 | the header parser accepts exactly the frames with the sync header of a number, two zero bytes and the right checksum, and reads that number back |
| PacketLoss.ComputeCheck | apps/audioplayers/plc_utils.c:93-126 | the checksum loop covers bytes 3, 4 and 6 to 9 and nothing else; its branch for four left-over bits is dead |
| PacketLoss.ParseHeader | apps/audioplayers/plc_utils.c:60-140 | the parser's error codes and sequence number, check by check, equal the header specification |
| PacketLoss.CheckMute | apps/audioplayers/plc_utils.c:177-185 | true exactly when the first 59 bytes all equal the pattern |
| PacketLoss.CheckTransmitterOffset | apps/audioplayers/plc_utils.c:195-219 | true exactly when the front or the rear part that a shifted transmitter would leave muted is muted, with the exceptions for index 0 and 1 |
| PacketLoss.Detector.UpdateConflict | apps/audioplayers/plc_utils.c:157-166 | the packet before last is compared without its padding byte, and the history of two packets moves on by one |
| PacketLoss.Detector.Process | apps/audioplayers/plc_utils.c:251-332 | classification, remembered number, history, flags and histogram after one packet equal the decision function on the old memory |
| PacketRuns.StreamPasses | apps/audioplayers/plc_utils.c:251-332 | an unbroken stream of valid frames that the detector is ready for passes, every frame |
| PacketRuns.EarlyOutcomeMeans | apps/audioplayers/plc_utils.c:251-273 | which packets are rejected before their header is looked at, byte by byte: muted, half-muted, or the same 59 bytes as the packet before last unless the check before last reported that |
| PacketRuns.OutcomeMeans | apps/audioplayers/plc_utils.c:274-326 | what each outcome says of a packet that gets to its header: no number shown, a number shown but no valid frame, a valid frame with the number expected if one is |
| PacketRuns.PassesAfterReject | apps/audioplayers/plc_utils.c:260-321 | whatever a packet was rejected for, the next valid frame passes with any number, unless taken for a muted, half-muted or repeated one |
| PacketRuns.PassesAfterPass | apps/audioplayers/plc_utils.c:298-322 | after an accepted frame a valid frame passes exactly with the next number |
| PacketRuns.LostOnAir | apps/audioplayers/plc_utils.c:187-219 | when a packet on the air is lost from a transmitter whose frames start inside it, both frames that had a part in it are recognised |
| PacketRuns.FlagsAreLastChecks | apps/audioplayers/plc_utils.c:168-174 | over any run the two flags are the results of the last two checks made, and packets that make none leave them |
| PacketRuns.NumbersMakeStream | apps/audioplayers/plc_utils.c:157-174 | frames with consecutive numbers are never taken for repeats, because two apart they differ in the number |
| PacketRuns.GapDetected | apps/audioplayers/plc_utils.c:237-322 | after two accepted frames and k lost ones the next valid frame passes exactly when four divides k |
| PacketRuns.FalseOffsetMute | apps/audioplayers/plc_utils.c:195-219 | a valid frame with zero padding is taken for a half-muted one exactly when the pattern is zero, the index is at least two and the frame ends in that many zero bytes |
| PacketRuns.RemembersLastTwo | apps/audioplayers/plc_utils.c:157-166 | after any run the history holds the last two packets, whatever they were |
| PacketRuns.ConflictsNotTwoApart | apps/audioplayers/plc_utils.c:157-174 | no two conflict checks two apart both report a conflict, over any run |
| PacketRuns.HistogramCounts | apps/audioplayers/plc_utils.c:334-347 | over any run with any codec verdicts each counter grows by the number of packets that came to that outcome, so the pass counter never runs below its start |
| PacketRuns.HistogramTotal | apps/audioplayers/plc_utils.c:334-347 | the histogram total grows by exactly one for each packet |
| MsbcUplink.Framer.Build | apps/audioplayers/voicebtpcmplay_sco_dma_snapshot.cpp:639-661 | header, body and padding land where the rotation by the offset puts them |
| MsbcUplink.Framer.Process | apps/audioplayers/voicebtpcmplay_sco_dma_snapshot.cpp:621-703 | one call sends, one byte in the high half of each word, exactly the rotated frames of its bodies, leaves the rest of the destination alone and advances the 32-bit counter |
| MsbcUplink.FrameCount | apps/audioplayers/voicebtpcmplay_sco_dma_snapshot.cpp:633 | a call makes as many frames as both lengths have room for, and no fewer |
| MsbcUplink.SentInCalls | apps/audioplayers/voicebtpcmplay_sco_dma_snapshot.cpp:625-699 | what two calls send is what one call would have sent, also when the counter wraps between them |
| MsbcUplink.SentIsFramed | apps/audioplayers/voicebtpcmplay_sco_dma_snapshot.cpp:605-703 | for offsets 0, 1 and 2 the sent bytes from (60 - offset) mod 60 on are well-formed frames whose numbers advance by one modulo four |
| MsbcUplink.FramedBodyIsValid | apps/audioplayers/voicebtpcmplay_sco_dma_snapshot.cpp:639-661 | a frame around a body with a right checksum is one the receiver's parser accepts, with its number |
| MsbcDownlink.Downlink.FindSync | apps/audioplayers/voicebtpcmplay_sco_dma_snapshot.cpp:325-337 | finds the first place that shows a sync header |
| MsbcDownlink.Downlink.LookAt | apps/audioplayers/voicebtpcmplay_sco_dma_snapshot.cpp:380-470 | the drift and the flag of one frame boundary, in the order -1, 0, +1, mute pattern, lost |
| MsbcDownlink.Downlink.Decide | apps/audioplayers/voicebtpcmplay_sco_dma_snapshot.cpp:325-478 | the lock and the frame starts one call decides on equal the plan for the buffer it sees |
| MsbcDownlink.Downlink.CutFrame | apps/audioplayers/voicebtpcmplay_sco_dma_snapshot.cpp:480-493 | a frame is the sixty bytes from its start, the byte past the buffer included where a drift reaches it |
| MsbcDownlink.Downlink.Classify | apps/audioplayers/voicebtpcmplay_sco_dma_snapshot.cpp:480-529 | frames, outcomes, detector memory and histogram after one call equal the sequential run of the detector on the cut frames |
| MsbcDownlink.Downlink.Process | apps/audioplayers/voicebtpcmplay_sco_dma_snapshot.cpp:282-606 | one whole call: lock, frames, outcomes, detector state, histogram and the sixty bytes kept |
| MsbcDownlink.Downlink.Keep | apps/audioplayers/voicebtpcmplay_sco_dma_snapshot.cpp:599-602 | the sixty bytes after the consumed ones move to the front, overlapping or not |
| MsbcDownlink.LowIs | apps/audioplayers/voicebtpcmplay_sco_dma_snapshot.cpp:359-367 | the first cut is the one place on the frame boundary from the third byte of the buffer on and before the sixty-third |
| MsbcDownlink.IndexOf | apps/audioplayers/voicebtpcmplay_sco_dma_snapshot.cpp:501-503 | the index is how far the locked offset is ahead of the one expected, modulo sixty |
| DownlinkRuns.HeadersApart | apps/audioplayers/voicebtpcmplay_sco_dma_snapshot.cpp:394-440 | two sync headers are never one byte apart, so the order of the drift tests does not matter |
| DownlinkRuns.LockKept | apps/audioplayers/voicebtpcmplay_sco_dma_snapshot.cpp:371-478 | a locked call keeps its lock exactly when every boundary shows a header within one byte or a mute pattern |
| DownlinkRuns.CutsAtHeader | apps/audioplayers/voicebtpcmplay_sco_dma_snapshot.cpp:394-493 | a frame of a locked call with a header within a byte of its boundary, on either side, is cut so that it begins with that header; any other is cut at the boundary |
| DownlinkRuns.NearComesOut | apps/audioplayers/voicebtpcmplay_sco_dma_snapshot.cpp:394-493 | so it is no frame without a header for the loss detector |
| DownlinkRuns.SyncIsParsers | apps/audioplayers/voicebtpcmplay_sco_dma_snapshot.cpp:329 | the reframer looks for exactly what the frame parser takes for a sync header |
| DownlinkRuns.LockedRunTiles | apps/audioplayers/voicebtpcmplay_sco_dma_snapshot.cpp:349-493 | while boundaries show headers, over any sequence of calls the lock stays, no frame drifts, and the frames are consecutive sixty-byte slices of the kept bytes and all input (at offset one, but for each frame's last byte) |
| DownlinkRuns.AcquiresAndTiles | apps/audioplayers/voicebtpcmplay_sco_dma_snapshot.cpp:325-340 | an unlocked receiver that meets a true header locks on it in that call and tiles the stream from then on |
| MsbcEndToEnd.SentCarriesFrames | apps/audioplayers/voicebtpcmplay_sco_dma_snapshot.cpp:605-703 | the sent bytes contain the whole frames end to end |
| MsbcEndToEnd.TrainReceived | apps/audioplayers/voicebtpcmplay_sco_dma_snapshot.cpp:282-606 | a receiver locked on a train of valid frames keeps its lock, gets exactly those frames, and passes them all if and only if none is taken for a half-muted one |
| MsbcEndToEnd.EndToEnd | apps/audioplayers/voicebtpcmplay_sco_dma_snapshot.cpp:282-703 | what the uplink framer sends from any whole frame on, a receiver locked there gets back frame by frame; all of it passes if and only if no frame is taken for a half-muted one, and none is when the stream sits where the chip expects it |
| MsbcEndToEnd.BodiesComeOut | apps/audioplayers/voicebtpcmplay_sco_dma_snapshot.cpp:282-703 | the received frames hold the encoder's bodies, byte for byte |
| MsbcEndToEnd.DirectLink | apps/audioplayers/voicebtpcmplay_sco_dma_snapshot.cpp:282-703 | locked at offset zero and fed the unrotated stream in any calls of whole frames, the receiver gets back exactly the frames sent and passes them all |
| MsbcEndToEnd.ColdStart | apps/audioplayers/voicebtpcmplay_sco_dma_snapshot.cpp:282-703 | an unlocked receiver with an idle detector, after any calls without a header, locks on the first header of what the framer sends, gets back every frame from the first boundary on, and passes them all if and only if none is taken for a half-muted one |
| MsbcEndToEnd.PassesFromFirstHeader | apps/audioplayers/voicebtpcmplay_sco_dma_snapshot.cpp:325-529 | the same for any train of valid frames |
| MsbcEndToEnd.QuietStays | apps/audioplayers/voicebtpcmplay_sco_dma_snapshot.cpp:325-347 | calls without a header leave the receiver unlocked and cut no frame with a header |
| MsbcEndToEnd.BodiesExist | apps/audioplayers/voicebtpcmplay_sco_dma_snapshot.cpp:639-643 | for any other bytes there is a body with a right checksum |
| MsbcEndToEnd.FirstHeaderLocks | apps/audioplayers/voicebtpcmplay_sco_dma_snapshot.cpp:325-359 | starting unlocked, every frame of the train from the first boundary on is received |
| MsbcEndToEnd.OffsetMutedExactly | apps/audioplayers/plc_utils.c:195-219 | when a received valid frame is taken for a half-muted one, for both mute patterns and any padding byte |
| MsbcEndToEnd.OffByOneLosesFrames | apps/audioplayers/voicebtpcmplay_sco_dma_snapshot.cpp:480-505 | at offset one on a chip that expects zero and mutes with 0x55, the last frame of every two-frame call is rejected, because its padding byte is the buffer's spare byte |
| MsbcEndToEnd.FreshIsReady | apps/audioplayers/plc_utils.c:242-249 | a freshly initialised detector is ready for any first frame |
| MsbcEndToEnd.FreshIsIdle | apps/audioplayers/plc_utils.c:242-249 | and has just heard no frame |
| MsbcEndToEnd.StaysReady | apps/audioplayers/plc_utils.c:251-332 | after two accepted frames in order the detector is ready for the next |
| CQueues.CQueue.EnCQueue | utils/cqueue/cqueue.c:64-87 | appends all of the bytes around the ring, or refuses exactly when they do not fit and changes nothing |
| CQueues.CQueue.DeCQueue | utils/cqueue/cqueue.c:284-309 | takes the first bytes off in order, around the end, or refuses exactly when there are too few |
| CQueues.CQueue.Drop | utils/cqueue/cqueue.c:284-319 | the form without a destination drops the same bytes |
| CQueues.CQueue.PeekCQueue | utils/cqueue/cqueue.c:322-343 | hands out one or two spans that together are the first bytes wanted, or refuses exactly when there are too few |
| InCaches.InCache.CopyIn | apps/audioplayers/a2dpplay.cpp:2625-2669 | the two-span, two-branch copy stores exactly the bytes of both spans around the ring |
| InCaches.InCache.Load | apps/audioplayers/a2dpplay.cpp:2586-2676 | a load appends to the ring exactly the bytes it takes off the queue, as many as fit with one place kept free |
| InCaches.InCache.GetData | apps/audioplayers/a2dpplay.cpp:2318-2332 | copies the next bytes of the ring, around its end |
| InCaches.Consumed | apps/audioplayers/a2dpplay.cpp:2334-2344 | moving the read position past k bytes leaves exactly the bytes after them |
| InCaches.Appended | apps/audioplayers/a2dpplay.cpp:2599-2676 | bytes stored in free places and published come after the live ones |
| RingProtocol.NothingLost | apps/audioplayers/a2dpplay.cpp:2304-2344 | in every interleaving of single steps both positions stay in the ring, what the coprocessor has consumed and read is the start of the stream, and between loads consumed, ring and queue bytes together are the stream |
| RingProtocol.NeverOverwrites | apps/audioplayers/a2dpplay.cpp:2586-2676 | in every interleaving, with however old a view of the read position, the loader never writes a place that holds a live byte |
| RingProtocol.CopyStepsStore | apps/audioplayers/a2dpplay.cpp:2625-2669 | the loader's single copy steps, run to the end, store what the two-span copy stores |
| RingProtocol.StepKeeps | apps/audioplayers/a2dpplay.cpp:2586-2676 | each single step of either processor keeps the conservation and snapshot invariant |
| Framing.AacRoundTrip | apps/audioplayers/a2dpplay.cpp:510-520 | a stored AAC packet below 2048 bytes is given back by both loaders, and what follows it is left |
| Framing.AacFrameBytes | apps/audioplayers/a2dpplay.cpp:515-516 | a packet lies in the queue as its length, low byte first, and its bytes |
| Framing.AacRingCodes | apps/audioplayers/a2dpplay.cpp:2191-2251 | each return code of the ring loader, by the bytes there; none but success moves the position |
| Framing.AacQueueCodes | apps/audioplayers/a2dpplay.cpp:1075-1128 | each return code of the queue loader, and what it leaves |
| Framing.LhdcFrameBytes | apps/audioplayers/a2dpplay.cpp:481-484 | an LHDC packet lies in the queue as the letters lhdc, its length in four bytes, low byte first, and its bytes |
| Framing.AacRingAcceptsFrames | apps/audioplayers/a2dpplay.cpp:2191-2251 | the ring loader succeeds exactly on bytes that start with a whole packet |
| Framing.AacPartial | apps/audioplayers/a2dpplay.cpp:1075-1128 | on a packet that has partly arrived the ring loader changes nothing, while the queue loader has already dropped the header |
| Framing.AacRingLoads | apps/audioplayers/a2dpplay.cpp:2191-2251 | from the start of a packet stream one load gives the first packet once it is all there, and nothing before |
| Framing.LhdcResync | apps/audioplayers/a2dpplay.cpp:2145-2172 | one load skips exactly the tag-free bytes before a whole tagged packet, gives its payload and leaves what follows |
| Framing.LhdcLoadIsFrame | apps/audioplayers/a2dpplay.cpp:2119-2186 | a load that succeeds was given tag-free bytes, a stored packet and what it leaves; one that does not leaves everything |
| Framing.LhdcRingLoads | apps/audioplayers/a2dpplay.cpp:2119-2186 | from the start of a stream of stored packets one load gives the first once it is all there, and nothing before |
| Framing.NoTagAcross | apps/audioplayers/a2dpplay.cpp:2155-2159 | no tag begins before a tag and overlaps it |
| Framing.Length32RoundTrip | apps/audioplayers/a2dpplay.cpp:482-484 | the stored 32-bit length reads back |
| LhdcStores.Store | apps/audioplayers/a2dpplay.cpp:479-497 | tag, length and payload are queued as a whole or not at all, and an empty packet queues nothing |
| Loaders.CpLoadAacFrame | apps/audioplayers/a2dpplay.cpp:2191-2251 | the ring loader equals its specification, header across the end of the ring included, and gives the read-ahead bound |
| Loaders.Scan | apps/audioplayers/a2dpplay.cpp:2145-2159 | the scan ends at the first tag or where fewer bytes than a header are left |
| Loaders.CpLoadLhdcFrame | apps/audioplayers/a2dpplay.cpp:2119-2186 | latency change, decoder not ready, and the scan for a packet, each with the read position it leaves |
| Deliveries.PacketsDelivered | apps/audioplayers/a2dpplay.cpp:2119-2251 | AAC and LHDC, in every interleaving in which the read position moves only as the loader moves it, on bytes read one by one with a possibly old view of the write position: the packets loaded are the first ones queued, in order, exactly their bytes are consumed, and what has been read is a packet to load exactly when it holds all of the next one |
| AacQueues.AacQueue.Store | apps/audioplayers/a2dpplay.cpp:510-700 | one attempt to store a packet: bytes, both counters and the caching state |
| AacQueues.AacQueue.LoadFrame | apps/audioplayers/a2dpplay.cpp:1056-1128 | the queue loader with its three outcomes, the bytes it leaves and the packet counter |
| AacQueues.QueueIsFifo | apps/audioplayers/a2dpplay.cpp:510-700 | over every run the queue of bytes behaves as a first-in first-out list of whole packets, and the counter is the number queued, plus one if caching overflowed |
| AacQueues.CachingLasts | apps/audioplayers/a2dpplay.cpp:549-616 | caching goes on exactly while fewer packets than the limit have come, left-over ones counted, and all of them fit |
| AacQueues.ListConserved | apps/audioplayers/a2dpplay.cpp:510-700 | what was queued and what was accepted is what was loaded and what is left, in order |
| AacQueues.SessionStarts | apps/audioplayers/a2dpplay.cpp:3397-3404 | a session starts with an empty queue and a zero count, whatever the delay counter was left at |
| Framing.MaxRead | apps/audioplayers/a2dpplay.cpp:2214-2229 | the read-ahead bound is the least of the powers of two from 64 to 2048 above the length |
| AacQueues.StoreRefines | apps/audioplayers/a2dpplay.cpp:510-520 | a store of bytes is a store of a packet in the list; one that does not fit changes no byte |
| AacQueues.LoadRefines | apps/audioplayers/a2dpplay.cpp:1075-1128 | a load of bytes is a load of the oldest packet |
| LhdcAssembly.Assembler.Process | apps/audioplayers/a2dpplay.cpp:1756-1870 | one fragment: synchronization, expected number, buffer, return code, completed packet and latency |
| LhdcAssembly.HeaderParts | apps/audioplayers/a2dp_decoder/a2dp_decoder_lhdc.cpp:45-55 | flags and latency read out of a header byte are those put in |
| LhdcAssembly.CodeMeans | apps/audioplayers/a2dpplay.cpp:1756-1870 | the code is 1 exactly when a packet is completed and -1 exactly for a fragment outside any packet that neither starts nor is one, or one that overflows the packet being collected |
| LhdcAssembly.StoredIsDelivered | apps/audioplayers/a2dpplay.cpp:479-486 | over every run, what a caller stores that looks at the codes alone is exactly what is delivered |
| LhdcAssembly.Soundness | apps/audioplayers/a2dpplay.cpp:1756-1870 | whatever arrives, each delivered packet is the payload of adjacent received fragments with consecutive numbers, from a single or start one to a single or last one; waiting for a start means an empty buffer, waiting for a last means synced, and synced fixes the expected number |
| LhdcAssembly.GaplessDelivery | apps/audioplayers/a2dpplay.cpp:1773-1863 | without loss exactly the packets that fit are delivered, in order |
| LhdcAssembly.PacketPasses | apps/audioplayers/a2dpplay.cpp:1773-1863 | a sent packet is delivered unchanged exactly when all its fragments arrive and it fits, as long as no fragment arrives after a gap that hides while a packet is being collected |
| LhdcLosses.SurvivorsDelivered | apps/audioplayers/a2dpplay.cpp:1773-1863 | under any loss without a hidden gap (a positive multiple of 256 fragments, lost inside a packet whose fragments all came and fit so far, and then another fragment arrives), what is delivered is exactly the packets that arrived whole and fit, in the order sent |
| LhdcLosses.MixesExactly | apps/audioplayers/a2dpplay.cpp:1773-1863 | the assembler never adds to a packet a fragment that was not sent right after the one added before it, if and only if there is no hidden gap |
| LhdcLosses.CalmOnMarks | apps/audioplayers/a2dpplay.cpp:1773-1863 | that condition on the assembler's state is one on the fragments and the marks of what arrives alone |
| LhdcLosses.HiddenGapDelivers | apps/audioplayers/a2dpplay.cpp:1831-1863 | after a hidden gap what arrives up to the next last fragment is delivered as the end of the packet open before it |
| LhdcLosses.HiddenGapSpoils | apps/audioplayers/a2dpplay.cpp:1831-1863 | after a hidden gap between packets, single packets and one in several fragments that all arrive and fit come out as one; what is delivered is right if and only if there are no single ones and the bytes collected before the gap are none |
| LhdcLosses.HiddenGapInsideSpoils | apps/audioplayers/a2dpplay.cpp:1831-1863 | after a hidden gap inside a packet its last part is delivered joined to its first, though the packet did not arrive whole |
| LhdcAssembly.GapShows | apps/audioplayers/a2dpplay.cpp:1773-1788 | a gap shows in the sequence numbers exactly when it is not a multiple of 256 |
| LhdcAssembly.UnluckyLoss | apps/audioplayers/a2dpplay.cpp:1773-1788 | a stream and a loss of 256 fragments after which a packet is delivered that nobody sent |
| DecodeSlots.ReleasedInOrder | apps/audioplayers/a2dpplay.cpp:2679-2725 | in every interleaving, also for the LHDC start index, the i-th release is of the slot of the i-th finish; only a slot finished in full by a pass that began with it empty is played, and then what that pass decoded is what is played, for every finish into whose slot no resumed pass of the slot before it ran over |
| DecodeSlots.SlotsInOrder | apps/audioplayers/a2dpplay.cpp:2347-2472 | in every reachable state the slots from the main processor's up to the coprocessor's are finished and the rest idle, but for the coprocessor's own |
| DecodeSlots.PlayedWhen | apps/audioplayers/a2dpplay.cpp:2691-2698 | a look finds the slot playable exactly when the next finish due was a full one whose last pass began with the slot empty |
| DecodeSlots.DroppedInBetween | apps/audioplayers/a2dpplay.cpp:2691-2722 | a slot that becomes done between the two reads of its state is released without being played |
| DecodeSlots.DroppedRun | apps/audioplayers/a2dpplay.cpp:2691-2722 | a run from the start in which that happens |
| DecodeSlots.StepKeeps | apps/audioplayers/a2dpplay.cpp:2347-2725 | each single step of either processor keeps the slot invariant |
| DecodeSlots.OthersStay | apps/audioplayers/a2dpplay.cpp:2487-2545 | a pass that stays inside its slot writes no other slot |
| DecodeSlots.PendingStays | apps/audioplayers/a2dpplay.cpp:2487-2545 | producing a chunk changes no waiting slot but the one counted as hit |
| DecodeSlots.OverrunWrites | apps/audioplayers/a2dpplay.cpp:2533-2545 | what a pass that runs past its slot does to the next: exactly the part of the chunk past the end replaces the first samples there |
| DecodeSlots.SpoiledRun | apps/audioplayers/a2dpplay.cpp:2533-2545 | a run from the start in which a slot is played with a sample that a resumed pass of the slot before it wrote over its own |
| UpFir.Fir.Run | apps/audioplayers/voicebtpcmplay.cpp:1692-1733 | one buffer: its outputs are the convolution of history and input with every phase, and the history becomes the last 23 samples |
| UpFir.Fir.Accumulate | apps/audioplayers/voicebtpcmplay.cpp:1697-1709 | the inner loop is the 32-bit sum of 24 products over the window |
| UpFir.Fir.Slide | apps/audioplayers/voicebtpcmplay.cpp:1722-1726 | the overlapping move to the left keeps the samples it moves |
| UpFir.StreamingIsOneShot | apps/audioplayers/voicebtpcmplay.cpp:1692-1733 | for every cut of an input into buffers, empty and short ones included, the outputs together are the one-shot convolution, and the history its last 23 samples |
| UpFir.OutputAt | apps/audioplayers/voicebtpcmplay.cpp:1697-1712 | output p of input sample i is phase p over the window that ends there |
| UpFir.Exact | apps/audioplayers/voicebtpcmplay.cpp:1650-1712 | with samples of magnitude up to 29835, no partial sum of any phase leaves 32 bits and the shifted result is the exact one in 16 bits |
| UpFir.StreamExact | apps/audioplayers/voicebtpcmplay.cpp:1692-1733 | so every output of a stream within the bound is the exact sum divided by 65536 and rounded down |
| UpFir.BoundIsTight | apps/audioplayers/voicebtpcmplay.cpp:1650-1684 | with one more than the bound there are samples whose sum leaves 32 bits |
| UpFir.PhasesMirror | apps/audioplayers/voicebtpcmplay.cpp:1650-1674 | coefficient k of a phase is coefficient 23 - k of the mirrored phase, in both tables |
| UpFir.TapsMove | apps/audioplayers/voicebtpcmplay.cpp:1650-1674 | from phase to phase the main tap falls and the one after it rises, in both tables |
| UpFir.MainTaps | apps/audioplayers/voicebtpcmplay.cpp:1650-1674 | no other tap of a phase exceeds 6431 or outweighs those two |
| UpFir.ConstantResponse | apps/audioplayers/voicebtpcmplay.cpp:1697-1712 | what each phase puts out for a constant input, and that all phases have the same gain up to ten parts in 31760 |
| UpFir.RisingResponse | apps/audioplayers/voicebtpcmplay.cpp:1697-1712 | what each phase sums to on a rising input, growing from phase to phase |
| UpFir.WorstPhase | apps/audioplayers/voicebtpcmplay.cpp:1650-1674 | no phase of either table has an absolute coefficient sum above 71978 |
| EchoQueues.EchoQueue.Push | apps/audioplayers/voicebtpcmplay.cpp:1962-1987 | queues a frame, refused exactly when the ring is full |
| EchoQueues.EchoQueue.Pop | apps/audioplayers/voicebtpcmplay.cpp:1763-1788 | hands out the oldest frame, refused exactly when the ring is empty |
| EchoQueues.WholeFrames | apps/audioplayers/voicebtpcmplay.cpp:1772-1782 | with a size of whole frames the flag tells full from empty: full means no room for a frame, neither means both a frame and room for one |
| ChannelSplits.Compact | apps/audioplayers/voicebtpcmplay_sco_dma_snapshot.cpp:243-247 | the in-place removal leaves exactly the microphone samples in order, for any channel count, and the length the source computes |
| ChannelSplits.CopyReference | apps/audioplayers/voicebtpcmplay_sco_dma_snapshot.cpp:239-241 | the reference buffer gets exactly the reference samples in order |
| ChannelSplits.SplitInverse | apps/audioplayers/voicebtpcmplay_sco_dma_snapshot.cpp:235-247 | interleaving both parts again gives the captured buffer |
| ChannelSplits.MicsLength | apps/audioplayers/voicebtpcmplay_sco_dma_snapshot.cpp:247 | the number of microphone samples is the one the source computes |
| AudioLists.AudioList.AppendStatus | apps/audioplayers/app_audio.cpp:596-669 | the list after an append and the result, every branch; pool blocks in use stay equal to the list's length |
| AudioLists.AudioList.RemoveStatus | apps/audioplayers/app_audio.cpp:695-776 | the list after a removal, the status to play next and the result |
| AudioLists.AudioList.RemovePrompt | apps/audioplayers/app_audio.cpp:708-752 | both assertions on the next status hold on any ordered list |
| AudioLists.AudioList.CheckFilter | apps/audioplayers/app_audio.cpp:521-553 | a second ring is filtered, and any other prompt when three entries wait |
| AudioLists.AlwaysOrdered | apps/audioplayers/app_audio.cpp:596-781 | under every sequence of append, remove and clear the list is others followed by prompts, at most one ring, at most four prompts, no longer than the pool |
| AudioLists.AppendPlaces | apps/audioplayers/app_audio.cpp:596-669 | an appended prompt becomes the last prompt and an appended stream the first entry, or nothing changes, or the list was cleared for a ring |
| AudioLists.TakenWhen | apps/audioplayers/app_audio.cpp:521-669 | when an append changes the list: room for a stream; no other ring, and room or prompts without a stream for a ring; fewer than three entries for any other prompt |
| AudioLists.AppendAnswers | apps/audioplayers/app_audio.cpp:596-669 | an append answers true exactly when the entry was taken and, for a prompt, none waited before it or the list was cleared; such a prompt is the only one, and one taken with a false answer waits behind others |
| AudioLists.RemovePops | apps/audioplayers/app_audio.cpp:720-730 | taking the waiting prompt gives the oldest one and takes it off |
| AudioLists.RemoveStream | apps/audioplayers/app_audio.cpp:753-774 | closing a stream plays nothing next, and what it takes off at the head, at the tail, and without a stream in the list |
| AudioLists.RemoveMissing | apps/audioplayers/app_audio.cpp:703-752 | closing a prompt when none waits changes nothing |
| AudioLists.RemovePlaysNext | apps/audioplayers/app_audio.cpp:708-752 | closing a prompt takes the oldest off and plays the next oldest, or the front stream when none is left |
| AudioLists.RecoveryRefused | apps/audioplayers/app_audio.cpp:613-633 | at the limit with a stream waiting, the recovery finds no free block: the ring is refused and nothing changes |
| AudioLists.TailMayBePrompt | apps/audioplayers/app_audio.cpp:753-768 | closing a stream at the tail takes a prompt off exactly when one waits |
| ScoPipelines.OneFrameLate | apps/audioplayers/bt_sco_chain_cp.c:83-174 | in every interleaving the first call returns frame_len zeros and call n + 1 what the stateful algorithm, run on the frames one after the other, makes of frame n |
| ScoPipelines.AlgorithmSees | apps/audioplayers/bt_sco_chain_cp.c:104-154 | when the coprocessor is about to work, the shared buffers begin with the last frame handed over and its reference, the reference buffer is what the algorithm left if there is none, and what it then leaves is the output due and the memory for the next frame |
| ScoPipelines.TakeTurns | apps/audioplayers/bt_sco_chain_cp.c:83-174 | the application processor is at the shared buffers only in the idle state, the coprocessor only in the working state, and the counters differ by at most one |
| ScoPipelines.StepKeeps | apps/audioplayers/bt_sco_chain_cp.c:83-174 | each single step of either processor keeps the pipeline invariant |
| ScoPipelines.StartStands | apps/audioplayers/bt_sco_chain_cp.c:176-222 | the state after initialisation satisfies the invariant |

## Left out

- SBC, AAC, LHDC, LDAC and mSBC codecs, PLC synthesis, resamplers, equalizers, echo cancellation: calls into other libraries.
- LDAC loaders and their recovery: the recovery can return without progress.
- Locks of the input queue: modelled as atomicity; that a bad AAC header returns with the lock held is not shown.
- Waiting between the attempts of a store while playing: each attempt is one `AacQueue.Store`, and the at most six attempts are not tied together.
- Queue reset after a bad AAC header, and AAC packets of 2048 bytes or more: `AacQueues` runs take shorter packets; the header's 16-bit truncation of longer lengths is in `Framing.AacFrame` only.
- The variant of the caching that a Bluetooth trigger ends (`__A2DP_PLAYER_USE_BT_TRIGGER__`).
- Per-slot packet counts (`cp_dec_mtu_cnt`) and the packet counter of the coprocessor path.
- LHDC length fields that overflow 32 bits with the header, or exceed the 4096-byte middle buffers: lengths are unbounded in `LhdcFromRing`.
- LhdcAssembly.Assembler.Process: takes fragments of at most 4096 payload bytes; the source does not limit a single fragment's copy.
- LhdcStores.Store: takes packets that fit the temporary buffer; the source does not check.
- The SBC loader, which hands out a pointer into the ring: its reads are covered by `RingProtocol`, its frame sizes are not.
- RingProtocol and DecodeSlots and ScoPipelines work on values: the arrays that the source updates in place are sequences there, changed one element or one copy at a time.
- DecodeSlots: a decode pass may end anywhere and be taken up at any time, which includes the source's loop over slots; decode errors are passes that end short.
- `next_frame_flag`, which is never set, the frame start of one that belongs to an offset that cannot occur while locked, and the disabled tail checks of the reframer.
- Drift of one byte in the tiling claims; the plan of a drifting call is in `PlanOf`, and `LockKept` covers it.
- DownlinkRuns: calls of one or two whole frames with output room for all of them; `Downlink.Process` takes any length up to 120 and any room.
- Sync hacker, padding and trailing-zero checks of the detector, which are not compiled in.
- Histogram counters are unbounded integers.
- CVSD frames, the branch of the uplink framer for other offsets, and the words' low halves.
- UpFir: ratios other than 3 and 6; signed overflow wraps, which C leaves undefined.
- `expand_1_channel_to_2_channels_16bits`, `app_audio_list_playback_clear`.
- Pools and nodes of `utils/list/list.c`: the list is a sequence, and a status block is counted, not addressed.
- In `EchoQueues` and `ScoPipelines` a failed assertion of the source is a refusal or an excluded call.
- Queue operations these players do not use: `EnCQueue_AI`, `EnCQueueFront`, `PullCQueue`.
- Timers, traces, events to threads, overlays, frequency scaling, memory ordering.

# Verified model of the robot media bridge

A Dafny model of the hard logic of a robot-side media bridge, and proofs about it.

* **Erasure code and frames** (`gf256`, `gf256_tables`, `cauchy`, `fec_v2`, `packet_codec`, `video_frames`,
  `frame_recovery`, `code_tightness`, `frame_losses`): the byte field modulo 0x11D and its tables, the Cauchy code, the
  parity builder, the header and the fragmenter. Main result: `FrameLosses.FrameDeterminedExactly`, what arrives of a
  frame determines it if and only if each group misses at most r of its datagrams.
* **Send queue** (`send_queue_spec`, `video_groups`, `send_queue`, `eviction_order`, `send_queue_runs`, `input_queue`):
  one deque as five FIFOs, with backlog trimming, eviction, a protected group, byte counts and drop counters. Main
  results: `SendQueueRuns.SentInOrderAndOnce`, `EvictionOrder.EvictionInTurn`, which items capacity eviction takes and
  in what order, `VideoGroups.TrimLeavesFour`.
* **Pacer and send loop** (`pacer`, `pacer_limits`, `frame_window`, `send_books`, `send_loop`): a leaky bucket with an
  adaptive rate, and the thread that obeys it. Main results: `Pacers.BlockedWait`, what a refusal costs;
  `SendLoop.SendThread.NothingVanishes`, where everything pushed has gone, at any point of any run;
  `SendLoop.SendThread.RunIsConformant`, the rate bound over every window of every run of the loop;
  `PacerLimits.RateBoundedExactly`, which configurations bound the rate at all, but for bursts capped below a
  microsecond's worth; `FrameWindows.FrameLosesExactly`, when a frame being sent can lose packets.
* **Encoder side** (`frame_timestamps`, `annex_b`, `emulation_prevention`, `exp_golomb`, `slice_types`,
  `frame_buffers`): which capture time a unit gets, the two NAL scanners, slice headers, and who owns which DMA buffer.
* **Pairing** (`peer_setup`): snapshot, remote call, re-check and commit, against session events.
* **Audio** (`jitter_buffer`, `ntp_clock`): the jitter buffer and the NTP arithmetic.

`collections`, `numbers`, `subsequences` and `wrappers` hold what several of these share. Objects the program updates in
place are classes whose methods are proved against functions on values; the theorems are about those functions and about
the classes' invariants. Where a promise fails, a lemma says exactly when it holds: `CauchyCode.DecodableExactly`,
`FrameRecovery.SourcesCarryFrame`, `PacerLimits.BurstBoundedExactly`, `PacerLimits.RateBoundedExactly`,
`Pacers.WaitSuffices`, `SendLoop.ProtectedUnlessCleared`, `FrameWindows.FrameLosesExactly`,
`FrameTimestamps.UnitsGetTheirFramesTime`, `AnnexB.ScannersAgree`, `EmulationPrevention.UnitComesBack`,
`PeerSetup.CurrentUnlessStale`, `NtpClock.DiffOfSum`. Inputs that break one are in
`CauchyCode.SharedElementBreaksDecoding`, `PacerLimits.ShortDebtUnbounded`,
`PacerLimits.BurstBoundedOnly`, `PacerLimits.NoBurstWindow`, `PacerLimits.WaitFallsShort`,
`SendLoop.ResetLeavesUnprotected`, `SendLoop.UnaskedInTheGap`, `FrameWindows.PushInTheGap`,
`FrameTimestamps.UnmarkedAfterShortFrame`, `AnnexB.ScannersDiffer`, `PeerSetup.ComebackIsStale` and
`PeerSetup.AudioPeerComesBack`.

Idealisations. Bytes are integers below 256. Doubles in the pacer are reals, so their rounding is not modelled, while
truncation to microseconds and to whole bits per second is. Counters the program keeps in 64 bits (`size_t`, statistics)
do not wrap here; sequence numbers, frame ids, fragment counts, the group counter, the jitter buffer's numbers, bit
values and presentation times wrap as in the program. Answers of sockets, drivers, remote services and callbacks, clock
readings and what other threads do are arbitrary.

Where code and documentation part: the header `include/video/video_encoder.hpp:174-177` says that each frame's first unit takes
the queued time; the code lets a unit take the previous time while units of a short frame are still expected, and the
model follows the code.

## Model

| member | source | states |
|---|---|---|
| Gf256.XtimeIsTimesTwo | src/udp/gf256.cpp:30-34 | the table builder's shift-and-reduce step is the product with the generator 2, for every byte |
| Gf256.MulComm | src/udp/gf256.cpp:43-54 | the product the tables are to hold is commutative |
| Gf256.MulAssoc | src/udp/gf256.cpp:43-54 | and associative |
| Gf256.MulAddLeft | src/udp/gf256.cpp:43-54 | and distributes over xor |
| Gf256.AlphaOrder | src/udp/gf256.cpp:24-35 | the generator's 255th power is 1, so the cycle the builder walks closes |
| Gf256.AlphaInjective | src/udp/gf256.cpp:24-35 | and its first 255 powers differ, so no table entry is written twice |
| Gf256.AlphaOnto | src/udp/gf256.cpp:24-35 | and every nonzero byte is one of them, so none is left out |
| Gf256.MulInv | src/udp/gf256.cpp:78-86 | every nonzero byte times its inverse is 1 |
| Gf256.MulNonZero | src/udp/gf256.cpp:72-86 | the field has no zero divisors |
| Gf256.PowerOfAlpha | src/udp/gf256.cpp:88-99 | a power of a power of the generator is the generator to the product of the exponents |
| Gf256Tables.Tables.FillPowers | src/udp/gf256.cpp:22-35 | the loop leaves exp[i] the i-th power of the generator and log its inverse, for all 255 |
| Gf256Tables.Tables.RepeatExp | src/udp/gf256.cpp:37-41 | exp repeats with period 255 up to index 511 |
| Gf256Tables.Tables.Init | src/udp/gf256.cpp:20-57 | after initialisation exp, log and the whole 256 by 256 product table are right |
| Gf256Tables.Tables.MulBytes | src/udp/gf256.cpp:72-76 | a table product is the true product modulo 0x11D |
| Gf256Tables.Tables.InvByte | src/udp/gf256.cpp:78-86 | the result is the inverse, and 0 for 0 |
| Gf256Tables.Tables.PowByte | src/udp/gf256.cpp:88-99 | the result is the repeated product, 0^0 = 1 included |
| Gf256Tables.Tables.MulAdd | src/udp/gf256.cpp:101-122 | every one of the first bytes gains coefficient times source, the rest of the buffer stays, through all three branches |
| CauchyCode.CauchyNonsingular | src/udp/fec_v2.cpp:51-85 | every square Cauchy submatrix is nonsingular: a combination of 1/(x+y) that vanishes at as many points as it has terms is zero |
| CauchyCode.AnyKSymbolsDecode | src/udp/fec_v2.cpp:51-85 | up to 128 sources and 128 parities, two source vectors that agree on any k of the k+r symbols are equal |
| CauchyCode.SharedElementBreaksDecoding | src/udp/fec_v2.cpp:71-79 | where a column and a row share their field element, decoding fails |
| CauchyCode.DecodableExactly | src/udp/fec_v2.cpp:51-85 | the code is maximum distance separable if and only if it has no source, no parity, or at most 128 of each |
| CodeTightness.UnseenChange | src/udp/fec_v2.cpp:51-85 | whatever fewer than k symbols arrive, some change of the k sources shows in none of them |
| CodeTightness.DeterminedExactly | src/udp/fec_v2.cpp:51-85 | up to 128 of each, the symbols that arrived determine the sources, whatever these are, if and only if they are at least k |
| Fec.GetParams | src/udp/fec_v2.cpp:111-127 | parity is asked for exactly under table 1, once loaded, below 256 fragments and where the table's row for that count is nonzero in both numbers; then it is that row |
| Fec.FecV2.GetCoef | src/udp/fec_v2.cpp:51-85 | cached or not, the table for (k, r) holds inv(j xor (0x80 + i)) in row-major order |
| Fec.FecV2.BuildCoefRow | src/udp/fec_v2.cpp:71-79 | one row of it |
| Fec.FecV2.PrepareGroupCoefficients | src/udp/fec_v2.cpp:87-108 | every group's source count, modulo 256 as the counter keeps it, and its coefficient table; a count of 0 has none |
| Fec.GroupSizeNext | src/udp/fec_v2.cpp:97-101 | a fragment lies in the frame exactly when its rank lies in its group, so the counting loop counts the group |
| Fec.ParityByteSnoc | src/udp/fec_v2.cpp:198-209 | one more fragment adds its coefficient times its zero-padded byte |
| Fec.PartialPayloadStep | src/udp/fec_v2.cpp:202-207 | adding only the bytes a short fragment has equals adding its zero-padded bytes |
| Fec.FecV2.AccumulateGroup | src/udp/fec_v2.cpp:198-209 | with at most 255 fragments per group the inner loop leaves the payload of parity p of group g equal to the algebraic sum over its fragments |
| Fec.FecV2.BuildParityInto | src/udp/fec_v2.cpp:156-212 | with at most 255 fragments per group, for every group count and symbol length each filled buffer p*groups+g is the algebraic parity; short and surplus buffers, null buffers and trailing bytes are left alone |
| Fec.FecV2.BuildParity | src/udp/fec_v2.cpp:129-154 | within the same bound the allocating form returns exactly those payloads, or nothing when there is nothing to protect |
| PacketCodec.DecodeEncode | src/udp/packet_codec.cpp:15-35 | reading the little-endian header back gives every field and leaves the payload |
| PacketCodec.BuildVideoPacket | src/udp/packet_codec.cpp:121-142 | the writer appends exactly that header, then the payload |
| PacketCodec.HeaderLayout | src/udp/packet_codec.cpp:121-142 | each field stands at its offset, least significant byte first |
| VideoFrames.UdpManager.SourceItems | src/udp/udp_manager.cpp:549-585 | source datagram n carries fragment n under FragmentIndex n and consecutive sequence numbers |
| VideoFrames.UdpManager.ParityPayloads | src/udp/udp_manager.cpp:587-637 | parity shell q holds the parity q/groups of group q mod groups of the zero-padded frame |
| VideoFrames.UdpManager.ParityItems | src/udp/udp_manager.cpp:593-635 | parity datagram q carries FragmentIndex total+q and the parity flag in the queue only |
| VideoFrames.UdpManager.BuildBatch | src/udp/udp_manager.cpp:529-649 | one frame is its source datagrams, then groups times r parity datagrams where the table asks for parity and none where it does not, in index order, and one GroupEnd that is neither keyframe nor parity |
| VideoFrames.UdpManager.ProcessFrame | src/udp/udp_manager.cpp:519-656 | with table 1, once loaded, below 256 fragments and with both entries of the row nonzero, the frame has exactly the product of the two entries of parity datagrams, and none otherwise; the batch, with the items' queue attributes, goes to the queue as a whole; frame id and sequence number advance modulo their widths, the latter by one for each datagram |
| VideoFrames.PlanFor | src/udp/fec_v2.cpp:111-127 | a frame's groups and parities are the two entries of the table's row for its fragment count, or 0 and 0 |
| FrameRecovery.FragmentCount | src/udp/udp_manager.cpp:529 | the fragment count fits its 16 bits exactly up to 65535 payloads |
| FrameRecovery.SourcesCarryFrame | src/udp/udp_manager.cpp:529-585 | the source payloads concatenate to the frame if and only if its size is at most 65535 times the payload size |
| FrameRecovery.FragmentIndexIsPosition | src/udp/udp_manager.cpp:549-635 | the index a receiver reads off a datagram is its position, so indices are distinct |
| FrameRecovery.DatagramFields | src/udp/udp_manager.cpp:549-635 | every field of every datagram as read off the wire: numbers, time, frame length, keyframe flag, and the table's id exactly where parity is sent |
| FrameRecovery.GroupRecovered | src/udp/udp_manager.cpp:587-638 | any k arrived symbols of a group fix all its source bytes at a byte position |
| FrameRecovery.AllGroupsRecovered | src/udp/udp_manager.cpp:587-638 | losses of at most r in each group leave every byte of every group fixed |
| FrameRecovery.FrameRecovered | src/udp/udp_manager.cpp:519-656 | end to end: two frames whose transmissions both contain what arrived are equal, if each group misses at most r datagrams |
| FrameLosses.TwoFrames | src/udp/udp_manager.cpp:519-656 | where a group misses more than r datagrams, or any is missing without parity, a second frame of the same size can have sent what arrived |
| FrameLosses.FrameDeterminedExactly | src/udp/udp_manager.cpp:519-656 | end to end and exactly: what arrived determines the frame if and only if each group misses at most r datagrams, and none where there is no parity |
| InputQueues.InputQueue.SendH264Frame | src/udp/udp_manager.cpp:409-461 | the queue is bounded by the configured count, at least one, the new frame is last, the newest of both kinds stay in order, and a keyframe is lost only when no other frame is left |
| InputQueues.VictimThins | src/udp/udp_manager.cpp:436-447 | each eviction keeps that |
| InputQueues.InputQueue.TakeFrame | src/udp/udp_manager.cpp:468-487 | the FEC thread takes the oldest frame |
| InputQueues.InputQueue.Clear | src/udp/udp_manager.cpp:222-226 | a stop or a session reset discards what is queued, which counts as no drop |
| SendQueueSpec.TakeNext | src/udp/send_queue.cpp:523-551 | taking the selected item is a dequeue of the first nonempty of five FIFOs; the others do not change |
| SendQueueSpec.NextUnique | src/udp/send_queue.cpp:523-541 | the selection is determined |
| SendQueueSpec.RequeueRestores | src/udp/send_queue.cpp:134-151 | handing the item back at the front restores every lane |
| VideoGroups.CollectIds | src/udp/send_queue.cpp:301-323 | the group list names each queued video group once, and nothing else |
| VideoGroups.CollectKeys | src/udp/send_queue.cpp:301-323 | a group is a keyframe group when one of its items is |
| VideoGroups.CollectInOrder | src/udp/send_queue.cpp:301-323 | the list is in order of the groups' first items in the queue |
| VideoGroups.CollectWithoutGroup | src/udp/send_queue.cpp:325-373 | dropping a group's items drops exactly its entry from the list |
| VideoGroups.VictimHeadsRanking | src/udp/send_queue.cpp:351-372 | a turn of the trim loop takes the head of the ranking: plain groups oldest first, then keyframe groups oldest first |
| VideoGroups.CandidateExists | src/udp/send_queue.cpp:351-368 | more than four groups always leave a candidate, so the loop's exit without one is never taken |
| VideoGroups.TrimSpares | src/udp/send_queue.cpp:325-373 | a trim never takes an item of the newest group, of the protected group, or of another stream |
| VideoGroups.TrimLeavesFour | src/udp/send_queue.cpp:325-373 | at most four groups are left, exactly four when it had to choose; behind a new keyframe only it and the protected group are left |
| VideoGroups.TrimPrefersPlainGroups | src/udp/send_queue.cpp:351-372 | a keyframe group is dropped only when no droppable plain group is left |
| VideoGroups.TrimTakesOldest | src/udp/send_queue.cpp:351-372 | of two groups it may drop, both with a keyframe or both without, the younger goes only if the older does |
| SendQueues.EvictMore | src/udp/send_queue.cpp:553-571 | one more eviction keeps the order of evictions: parity before anything else, video before other streams, the protected group never |
| SendQueues.SendQueue.DropGroup | src/udp/send_queue.cpp:470-514 | exactly the group's items leave, unless it is protected, and the drop counters and byte count follow |
| SendQueues.SendQueue.DropParityForGroup | src/udp/send_queue.cpp:430-468 | exactly the group's parity leaves, unless it is protected |
| SendQueues.SendQueue.TrimVideoBacklog | src/udp/send_queue.cpp:325-373 | the loop computes the trimmed queue, one whole group a turn, each counted once |
| SendQueues.SendQueue.DropOldestVideoParity | src/udp/send_queue.cpp:375-396 | the victim's parity is dropped, or none of an unprotected group is left; which group that is, EvictionOrder proves |
| SendQueues.SendQueue.DropOldestGroup | src/udp/send_queue.cpp:398-428 | a group is dropped, or only the protected group is left |
| SendQueues.SendQueue.EnforceLimits | src/udp/send_queue.cpp:553-571 | every turn shrinks the queue; at the end the item and byte counts are within both limits or only protected items are left, a queue within them loses nothing, and the protected group never does |
| EvictionOrder.EvictionInTurn | src/udp/send_queue.cpp:375-428 | capacity eviction as a whole, where a group's parity agrees on the keyframe flag: plain frames' parity goes before keyframes', all parity before video groups, groups with plain items before the others, other streams last; within each kind the oldest first, always a group's parity or the rest of a group as a whole; with the last one back a limit would be exceeded, and one still is only where all that is left is protected |
| EvictionOrder.KeyframeParityLast | src/udp/send_queue.cpp:375-396 | a keyframe's parity goes only after all plain parity that may go |
| SendQueues.NothingToEvict | src/udp/send_queue.cpp:375-428 | where only protected items are queued, eviction takes nothing |
| SendQueues.EvictedKeeps | src/udp/send_queue.cpp:553-571 | whatever the limits, eviction as a whole keeps its order and the protected group |
| SendQueues.SendQueue.PushBatch | src/udp/send_queue.cpp:95-132 | after a batch the queue is the trimmed backlog, evicted as above; every item is accounted for |
| SendQueues.SendQueue.Push | src/udp/send_queue.cpp:69-93 | the same for one item |
| SendQueues.SendQueue.RequeueFront | src/udp/send_queue.cpp:134-151 | a refused item is first again |
| SendQueues.SendQueue.PopPrioritized | src/udp/send_queue.cpp:190-213 | the oldest item of the most urgent lane leaves the queue and its bytes leave the count |
| SendQueues.SendQueue.PeekPrioritized | src/udp/send_queue.cpp:215-247 | shows the item the next pop takes |
| SendQueues.SendQueue.Pop | src/udp/send_queue.cpp:165-188 | takes the front item, whatever its priority |
| SendQueues.SendQueue.GetStatus | src/udp/send_queue.cpp:263-284 | the counts and bytes per priority are those of the lanes, and the oldest enqueue time is the least nonzero one |
| SendQueues.SendQueue.TakeSnapshot | src/udp/send_queue.cpp:286-299 | the counters report exactly the whole-group video drops since the last snapshot: their number, their items and the bytes these took on the wire |
| SendQueues.SendQueue.QueueBytesExact | src/udp/send_queue.cpp:543-551 | the byte counter is the sum of the queued datagrams' wire bytes, so no guarded subtraction saturates |
| SendQueues.SendQueue.Clear | src/udp/send_queue.cpp:43-52 | the queue empties, no group is protected any more, and everything in it is booked as cleared |
| SendQueues.SendQueue.Stop | src/udp/send_queue.cpp:31-41 | the same, for good |
| SendQueueRuns.TrimmedKeeps | src/udp/send_queue.cpp:325-373 | a trim reorders nothing and leaves the protected group and other streams alone |
| SendQueueRuns.PushOutcome | src/udp/send_queue.cpp:95-132 | after a push: no reordering, protected group whole, at most four video groups when a frame was completed, limits met or only protected items left |
| SendQueueRuns.StepKeepsOrder | src/udp/send_queue.cpp:134-151 | pushes, evictions, pops, sends and refusals each keep every lane in push order |
| SendQueueRuns.SentInOrderAndOnce | src/udp/udp_manager.cpp:865-894 | in every interleaving each priority is sent as a subsequence of what was pushed, and distinct items are never sent twice |
| Pacers.AdjustedInRange | src/udp/pacer.cpp:130-149 | the adjusted rate lies between the configured rate and the top rate |
| Pacers.TopReached | src/udp/pacer.cpp:130-149 | and the top rate is what a queue that is long enough asks for |
| Pacers.RateDrainsQueue | src/udp/pacer.cpp:130-149 | the rate drains the queue within its time limit, to the bit per second, unless it is at the top; above the configured rate it is no more than that takes |
| Pacers.UpdateInRange | src/udp/pacer.cpp:105-128 | a budget update keeps rate and debt in range and never raises the debt |
| Pacers.StepInRange | src/udp/pacer.cpp:33-128 | so does every call, whatever its time |
| Pacers.UpdatePaysAtMost | src/udp/pacer.cpp:105-128 | an update pays off at most the top rate times the time passed, despite clamps and truncation |
| Pacers.StepBudget | src/udp/pacer.cpp:57-89 | a call sends no more than the counted debt rises plus what the top rate pays off meanwhile, and a packet if the pacer was not asked about it |
| Pacers.RateConformance | src/udp/pacer.cpp:33-128 | over a run the accounted bytes are at most the largest burst and one packet, once more for every reset, one packet for each that the pacer was not asked about, and the top rate times the time |
| Pacers.DisciplinedIsAsked | src/udp/pacer.cpp:33-55 | a run whose every accounted packet follows an answer of 0 has no unasked ones |
| Pacers.WindowConformance | src/udp/pacer.cpp:33-128 | and so over every window of a run |
| Pacers.UsualLimitsLeaveRoom | src/udp/pacer.cpp:157-177 | half a second of debt and packets below a seventeenth of a second's bits meet the condition of the bound |
| PacerLimits.BurstBoundedExactly | src/udp/pacer.cpp:57-69 | what goes out at one instant is bounded if and only if the largest burst is below the debt the base rate allows, and is then within that burst and one packet |
| PacerLimits.LittleRoomIsBounded | src/udp/pacer.cpp:57-69 | over time the top rate is exceeded by a bounded amount whenever the largest burst and one packet fit the debt the base rate allows, less than the finest step over; the step is the gcd of top rate and 8 000 000, in 8 000 000ths of a byte |
| PacerLimits.RateBoundedExactly | src/udp/pacer.cpp:33-128 | and only then, where there is a burst; without one (a window of 0 ms) exactly when a packet is worth no more than the whole microseconds in which the top rate pays off that debt. Otherwise there are runs that gain on the top rate for ever |
| PacerLimits.ExactlyWithoutBurst | src/udp/pacer.cpp:157-177 | the second half, for a window of 0 ms, where packets go out only on a debt of 0 |
| PacerLimits.TinyBurstsAreCapped | src/udp/pacer.cpp:157-177 | the one kind of configuration left out has a burst cap below a microsecond's worth of the top rate |
| PacerLimits.ShortDebtUnbounded | src/udp/udp_module.cpp:87-94 | a configuration the loader accepts with no bound at all: 20 Mbit/s, a debt cap of 1 ms, a multiplier of 2 |
| PacerLimits.BurstBoundedOnly | src/udp/udp_module.cpp:87-94 | and one that is bounded at every instant and not over time |
| PacerLimits.NoBurstWindow | src/udp/udp_module.cpp:87-94 | at 8 Mbit/s without a burst window packets of 1227 bytes need a debt cap of 2 ms |
| Pacers.WaitZero | src/udp/pacer.cpp:33-55 | the answer is 0 exactly when the debt is within the burst allowance |
| Pacers.NoWaitExactly | src/udp/pacer.cpp:33-55 | whoever asks, at any configuration, waits only with an accounted packet beyond the burst of a pacer at work |
| Pacers.WaitCovers | src/udp/pacer.cpp:46-55 | the wait is the least number of microseconds that pays off the excess |
| Pacers.WaitSuffices | src/udp/pacer.cpp:33-55 | waiting it out makes the next answer 0 if and only if it is within two seconds or the debt cap is within the burst |
| PacerLimits.WaitFallsShort | src/udp/pacer.cpp:33-55 | an input where it is not enough: 4 kbit/s and a debt cap of 20 s, one packet of 1227 bytes after a reset, a wait of 2453000 us |
| Pacers.ConfiguredWaitSuffices | src/udp/pacer.cpp:33-55 | with multiplier times debt limit at most two seconds it always does |
| Pacers.WebRtcLikePacer.Reset | src/udp/pacer.cpp:15-21 | no debt, the configured rate, and in range |
| Pacers.WebRtcLikePacer.SetConfig | src/udp/pacer.cpp:23-31 | a multiplier below 1 becomes 1 |
| Pacers.WebRtcLikePacer.TimeUntilNextSend | src/udp/pacer.cpp:33-55 | is the specified query step and answer |
| Pacers.WebRtcLikePacer.OnPacketSent | src/udp/pacer.cpp:57-69 | is the specified send step |
| Pacers.SentWait | src/udp/pacer.cpp:57-69 | right after an accounted packet the next may go at once if and only if debt and packet, up to the cap, are within the burst, and otherwise waits for the excess |
| Pacers.OnlyAccountedCosts | src/udp/pacer.cpp:57-77 | a packet outside the account, and anything while the pacer is off, costs nothing |
| Pacers.WebRtcLikePacer.OnBlocked | src/udp/pacer.cpp:71-89 | is the specified back-off step; what that costs, Pacers.BlockedWait proves |
| Pacers.BlockedWait | src/udp/pacer.cpp:71-89 | right after a refusal an accounted packet may go at once if and only if the debt cap is within the burst; otherwise the wait is the time that pays off the largest of the packet, a millisecond of the rate and the debt already above the burst, as far as the cap leaves room |
| Pacers.RefusalCosts | src/udp/pacer.cpp:71-89 | at 8 Mbit/s a refused packet of 1200 bytes holds the next one up for 1200 us |
| Pacers.WebRtcLikePacer.GetStats | src/udp/pacer.cpp:91-103 | reports the rate and updates the budget |
| Pacers.StatsAreTimes | src/udp/pacer.cpp:91-103 | the reported times are the whole microseconds that pay off the debt, and the queue, at the rate |
| SendLoop.SendThread.constructor | src/udp/udp_manager.cpp:691-697 | the thread starts with the pacer reset and an empty history |
| SendLoop.SendThread.Ask | src/udp/udp_manager.cpp:842-851 | after an answer of 0 for an accounted item the history allows one such packet |
| SendLoop.SendThread.Interference | src/udp/udp_manager.cpp:217-242 | other threads, session resets included, keep the order of the lanes and a permission given, do to the queue what their locked sections do, and unless one of these is a clear take nothing from the protected frame |
| FrameWindows.FrameLosesExactly | src/udp/udp_manager.cpp:865-880 | whatever is done from the pop of a frame's first packet on: the frame can lose what it has queued if and only if the queue is cleared, or something is pushed before setProtectedVideoGroup |
| FrameWindows.SafeUnexposed | src/udp/udp_manager.cpp:744-749 | without such a section no run costs the frame anything the thread has not taken |
| FrameWindows.PushInTheGap | src/udp/udp_manager.cpp:865-880 | the smallest input: with frames 2 to 4 queued behind it, frame 1 loses its rest to the end of frame 5, pushed between the pop and the protection; a moment later it does not |
| SendLoop.SendThread.ResetQueue | src/udp/udp_manager.cpp:217-229 | the queue's part of a session reset |
| SendLoop.SendThread.RestartPacer | src/udp/udp_manager.cpp:230-233 | the pacer's part: it starts over, while a permission given before stays in the thread's hands |
| SendLoop.ProtectedUnlessCleared | src/udp/udp_manager.cpp:711-749 | in every history of packets, frame ends and clears the frame in progress is protected if and only if the queue has not been cleared since its first packet |
| SendLoop.SendThread.FrameIsProtected | src/udp/udp_manager.cpp:711-749 | and so in every state of the loop while the queue runs |
| SendLoop.UnprotectedUntilFrameEnd | src/udp/udp_manager.cpp:744-749 | after a clear nothing is protected until a frame ends |
| SendLoop.ResetLeavesUnprotected | src/udp/udp_manager.cpp:217-242 | a session reset in the middle of a frame leaves the next session's first frame unprotected, and the one after it not |
| SendLoop.SendThread.FlushFrame | src/udp/udp_manager.cpp:711-738 | a frame's end lifts the protection of the frame of which something was sent, and of no other |
| SendLoop.SendThread.SendDatagram | src/udp/udp_manager.cpp:740-808 | the first packet of a frame protects it before it is sent; the result is the socket's answer |
| SendLoop.SendThread.HandleItem | src/udp/udp_manager.cpp:810-825 | a group's end is never sent, and ends the frame in progress if it is a video group's; a datagram gets the socket's answer |
| SendLoop.SendThread.Settle | src/udp/udp_manager.cpp:880-912 | a sent packet is charged once, a refused one is handed back and the pacer backs off, and only sent packets enter the sent log |
| SendLoop.SendThread.HandBack | src/udp/udp_manager.cpp:881-886 | a refused packet is first again, while the queue runs |
| SendLoop.SendThread.MayGo | src/udp/udp_manager.cpp:836-862 | the pacer is asked about the item peeked at, and the thread goes ahead exactly on a wait of 0 |
| SendLoop.SendThread.Take | src/udp/udp_manager.cpp:866-872 | the next item of the moment is taken, perhaps not the one peeked at |
| SendLoop.SendThread.ProcessOne | src/udp/udp_manager.cpp:864-937 | at most one item is taken, and it has the socket's answer as its outcome; with others acting between peek, pop and protection, an accounted packet goes out unasked only if the one asked about was not accounted; the batch goes on only with an item the pacer has let through, and stops only where nothing is queued, the pacer asks for a wait, or the socket refused |
| SendLoop.UnaskedInTheGap | src/udp/udp_manager.cpp:836-872 | which happens: after a question about an audio packet outside the account, a session reset and a pushed video packet |
| SendLoop.SendThread.Round | src/udp/udp_manager.cpp:833-938 | a turn takes a batch of items, each with the socket's next answer, unless it ends early for one of these reasons |
| SendLoop.SendThread.SendThreadMain | src/udp/udp_manager.cpp:833-938 | every turn keeps the history of the pacer, the order and the record of protection, whatever socket, clock, producers and session resets do |
| SendLoop.SendThread.RunIsConformant | src/udp/udp_manager.cpp:833-938 | so every window of every run of the loop is within the rate bound, counted once more for every session reset in it and a packet for every unasked one, and every priority is sent in push order |
| SendLoop.SendThread.NothingVanishes | src/udp/udp_manager.cpp:833-938 | at any point of any run everything pushed is queued, sent, lost at the socket, evicted or cleared, each item as often as it went in; what the socket refused for now has gone back; the pacer was told of each datagram sent or refused, once and in order; and the frame's history is what the items handled make of it |
| SendBooks.PushedIsSomewhere | src/udp/udp_manager.cpp:864-912 | the balance behind it |
| FrameTimestamps.TimestampTracker.Dequeue | src/video/video_encoder.cpp:1095-1154 | dequeueOne's branches give each unit the specified time and next state |
| FrameTimestamps.TimestampTracker.Queue | src/video/video_encoder.cpp:975-983 | a submit queues its time |
| FrameTimestamps.TimestampTracker.TakeBack | src/video/video_encoder.cpp:992-996 | a refused submit takes its own time back |
| FrameTimestamps.SubmitInStep | src/video/video_encoder.cpp:971-999 | submits, accepted or refused, never put queue and encoder out of step |
| FrameTimestamps.UnitInStep | src/video/video_encoder.cpp:1095-1154 | a unit gets its own frame's time exactly unless it opens a frame unmarked behind a short one |
| FrameTimestamps.UnitsGetTheirFramesTime | src/video/video_encoder.cpp:1095-1154 | in every interleaving all units get their own frame's time if and only if the first unit after each short frame carries the driver's time; then each queued time is used once |
| FrameTimestamps.UnitsGetTheirFramesTimeFromIdle | src/video/video_encoder.cpp:1095-1154 | so for every run from the start of the encoder |
| FrameTimestamps.ShortFrameReached | src/video/video_encoder.cpp:1095-1154 | a state with a short frame out is reached |
| FrameTimestamps.UnmarkedAfterShortFrame | src/video/video_encoder.cpp:1127-1132 | where the next frame's first unit, if unmarked, gets the time of the frame before |
| AnnexB.EncoderForEachNal | src/video/video_encoder.cpp:221-295 | the encoder's scanner emits what its specification says, in all three formats |
| AnnexB.ModuleForEachNal | src/video/video_module.cpp:89-162 | so does the module's |
| AnnexB.ScannersInvertJoin | src/video/video_encoder.cpp:228-275 | both scanners return exactly the framed NAL units, for any mix of 3- and 4-byte start codes |
| AnnexB.NoCodeInside | src/video/video_encoder.cpp:230-244 | no start code begins inside a unit, whatever follows it |
| AnnexB.ScannersAgree | src/video/video_module.cpp:96-139 | on every byte string the two scanners agree if and only if no start code directly follows another with a byte behind it |
| AnnexB.ScannersDiffer | src/video/video_encoder.cpp:256-273 | on 00 00 01 00 00 01 X the encoder's scanner emits two units, the module's one |
| AnnexB.EmitsExactlyUnits | src/video/video_encoder.cpp:246-274 | on every byte string each scanner emits exactly the stretches between a start code and the next one with a byte behind it, or the end; the encoder's looks for that one behind the first byte |
| AnnexB.ScanInvertsPrefixes | src/video/video_encoder.cpp:277-294 | the length-prefix branch returns exactly the joined units |
| AnnexB.PrefixedExactly | src/video/video_encoder.cpp:277-294 | on every byte string the units emitted make up its beginning, and what follows is cut short, of length 0, or too long |
| EmulationPrevention.RbspPrefix | src/video/video_encoder.cpp:131-155 | fills the buffer with the specified prefix and leaves the rest of it alone |
| EmulationPrevention.StripRemovesExactly | src/video/video_encoder.cpp:131-155 | on every byte string exactly the 3s directly behind two zero bytes are removed, as far as there is room |
| EmulationPrevention.StripInvertsEscape | src/video/video_encoder.cpp:131-155 | removal inverts insertion for every payload, up to the capacity |
| EmulationPrevention.UnitComesBack | src/video/video_encoder.cpp:131-155 | with the byte appended to a payload that ends in zero, it does so exactly when the zeros at the end are even in number or do not fit |
| ExpGolomb.BitReader.ReadBit | src/video/video_encoder.cpp:62-73 | reads the next bit, most significant first, or fails at the end |
| ExpGolomb.BitsOfByte | src/video/video_encoder.cpp:62-73 | the eight bits of a byte are its binary digits, the highest first |
| ExpGolomb.BitReader.ReadBits | src/video/video_encoder.cpp:75-88 | reads n bits as a number modulo 2^32 |
| ExpGolomb.BitReader.ReadUE | src/video/video_encoder.cpp:90-122 | reads the specified code and stops where it says |
| ExpGolomb.ReadInvertsCode | src/video/video_encoder.cpp:90-122 | every value up to 2^32-2 is read back at every position, advancing by exactly its code |
| ExpGolomb.ReaderAcceptsExactlyCodes | src/video/video_encoder.cpp:90-122 | the reader returns v at a position if and only if ue(v) stands there and v is at most 2^32-2 |
| SliceTypes.ContainsH264ISlice | src/video/video_encoder.cpp:338-369 | true exactly when some scanned unit is an I slice |
| SliceTypes.SliceTypeExactly | src/video/video_encoder.cpp:346-368 | a unit is read as a slice of type v if and only if its type is 1 or 5 and its payload begins with two Exp-Golomb codes, the second one ue(v) |
| SliceTypes.ContainsIdrNal | src/video/video_encoder.cpp:299-336 | true exactly when some scanned unit has an IDR type of its codec |
| SliceTypes.IdrTypes | src/video/video_encoder.cpp:299-336 | by unit headers put together from their fields: type 5 in H.264, types 19 to 21 in H.265 |
| SliceTypes.SliceTypeFound | src/video/video_encoder.cpp:357-368 | the header of every coded slice is read back through the 96 bytes kept |
| SliceTypes.UnitFramable | src/video/video_encoder.cpp:131-155 | an escaped payload that ends in its stop bit never contains a start code |
| SliceTypes.PacketScan | src/video/video_encoder.cpp:338-369 | for every packet, slices next to units of other types, scanner, removal and reader together find an I slice exactly when there is one |
| FrameBuffers.PoolUnwraps | src/video/video_converter.cpp:192-200 | returning a dead frame's buffer leaves every index free once or owned once |
| FrameBuffers.LastUseLeaves | src/video/video_stream_manager.cpp:1830-1850 | a use count that reaches zero means that nobody holds the frame |
| FrameBuffers.SlotFills | src/video/video_encoder.cpp:971-985 | an accepted submit moves one slot to in flight with a buffer no other slot has |
| FrameBuffers.SlotEmpties | src/video/video_encoder.cpp:1017-1036 | a slot the driver gives back leaves the other slots and buffers as they were |
| FrameBuffers.VideoPipeline.constructor | src/video/video_converter.cpp:100-142 | at the start every buffer and every slot is free |
| FrameBuffers.VideoPipeline.TransformSync | src/video/video_converter.cpp:210-255 | takes the oldest free buffer exactly when the input is usable, one is free and the conversion succeeds, gives it back when the conversion fails, and touches nothing without a usable input; the undistorter does the same |
| FrameBuffers.VideoPipeline.GiveUp | src/video/video_stream_manager.cpp:1830-1850 | a holder lets go; the last one returns the buffer, once |
| FrameBuffers.VideoPipeline.Submit | src/video/video_encoder.cpp:862-1003 | accepts if and only if a slot is free and the checks and the driver say yes; then the buffer sits in the formerly first free slot, and otherwise the same slots are free as before |
| FrameBuffers.VideoPipeline.DrainInputDone | src/video/video_encoder.cpp:1005-1055 | the slots that come back are free again, in their order, and exactly their buffers are pending no longer |
| FrameBuffers.VideoPipeline.OnEncoderInputDone | src/video/video_stream_manager.cpp:1645-1677 | a finished buffer is always a pending one, so the branch for an unknown buffer is never taken |
| FrameBuffers.VideoPipeline.MakeSharedNv12Frame | src/video/video_stream_manager.cpp:1818-1851 | a converted buffer becomes the one frame that carries it, with its time, and is not pending |
| FrameBuffers.VideoPipeline.MaybeEnqueueEyeImageFrame | src/video/video_stream_manager.cpp:1861-1911 | queueing adds one use; at most one frame is on its way through the eye thread |
| FrameBuffers.VideoPipeline.EyeImageThread | src/video/video_stream_manager.cpp:1563-1619 | the eye thread's steps, in any number, keep ownership exact |
| FrameBuffers.VideoPipeline.OnConverterOutput | src/video/video_stream_manager.cpp:1781-1816 | exactly one submission, of this buffer with this time, and its answer is the result; on a yes the buffer is in the formerly first free slot, and the frame is queued for the eye thread if wanted and none was on its way; with eye-thread steps between all sections ownership stays exact, on success and failure |
| FrameBuffers.VideoPipeline.EncodeTurn | src/video/video_stream_manager.cpp:1228-1275 | a turn whose input is usable, with a free buffer and a conversion that succeeds, submits one frame with its time; without usable input or conversion none is submitted |
| FrameBuffers.VideoPipeline.EncodeLoop | src/video/video_stream_manager.cpp:1228-1275 | for every run, with the converter's pool or the undistorter's: each index free once or owned once, use counts exact, slots free or in flight, pending equal to held |
| FrameBuffers.AtRestPendingIsHeld | src/video/video_stream_manager.cpp:1789-1806 | between two frames the pending map's keys are exactly the buffers the encoder holds |
| FrameBuffers.NothingLeaks | src/video/video_stream_manager.cpp:1781-1911 | once encoder and eye thread hold nothing, every buffer and every slot is free |
| PeerSetup.EventKeepsCredit | src/main_node.cpp:1153-1232 | every session event and every phase of the timer keeps the credit backed by a remote call |
| PeerSetup.NeverCreditedToWrongPeer | src/main_node.cpp:1239-1348 | in every interleaving credited prefixes were subscribed to at the current peer earlier, a ready audio configuration was fetched from it, and a node that is done has all it wants |
| PeerSetup.NeverBeyondDeclared | src/main_node.cpp:1274-1313 | in every interleaving each subscription is to what is wanted and its peer had declared: audio iff declared, both pose streams iff both are, and nothing else |
| PeerSetup.EventDated | src/main_node.cpp:1323-1348 | a commit credits an older pairing's subscription or audio configuration exactly when the snapshot's peer has paired again since its remote answer |
| PeerSetup.CurrentUnlessStale | src/main_node.cpp:1323-1348 | credit, audio included, belongs to the current pairing at every moment of a run if and only if no commit of it acts on evidence from an earlier pairing |
| PeerSetup.CurrentFromStart | src/main_node.cpp:1239-1482 | so for every run from the start of the node |
| PeerSetup.PeerComesBack | src/main_node.cpp:1323-1328 | such a state is reached: the peer unpairs and pairs again between the answer and the commit |
| PeerSetup.ComebackIsStale | src/main_node.cpp:1323-1346 | and the commit then credits a subscription the current pairing never made |
| PeerSetup.AudioPeerComesBack | src/main_node.cpp:1429-1482 | the same race is reached for audio: the current pairing is credited with a configuration fetched in the earlier one |
| PeerSetup.MainNode.OnPaired | src/main_node.cpp:1153-1200 | pairing clears all credit, audio included |
| PeerSetup.MainNode.OnRejected | src/main_node.cpp:1202-1230 | a rejection or an unpairing clears the credit of that peer only, and leaves the audio configuration |
| PeerSetup.MainNode.TeardownActiveSession | src/main_node.cpp:2146-2157 | a teardown clears everything |
| PeerSetup.MainNode.ResetPeerSubscriptionState | src/main_node.cpp:1422-1427 | clears the subscriptions and keeps the peer |
| PeerSetup.MainNode.Snapshot | src/main_node.cpp:1246-1266 | the first locked section gives a verdict or the peer and prefixes to work with |
| PeerSetup.MainNode.Plan | src/main_node.cpp:1274-1313 | element by element: strictly rising, 0x04 in it iff audio is wanted and declared, 0x02 and 0x09 each iff pose is wanted and both are declared, nothing else; and whether all that is wanted is declared |
| PeerSetup.MainNode.Negotiate | src/main_node.cpp:1268-1322 | the remote calls, for every answer of the peer: what is subscribed to is the plan for what it declared, and nothing is when that is what is subscribed to already |
| PeerSetup.MainNode.CommitSubscriptions | src/main_node.cpp:1324-1348 | the re-check and commit |
| PeerSetup.MainNode.EnsurePeerSubscriptions | src/main_node.cpp:1239-1348 | with session events between its sections, success means that everything wanted was subscribed to at the current peer; undisturbed, and with a peer that declares and accepts all, it succeeds |
| PeerSetup.MainNode.FetchRemoteAudioConfig | src/main_node.cpp:1429-1482 | success means that the current peer's configuration is in use, when one is wanted; undisturbed, a valid answer is put to use |
| JitterBuffer.AudioReceiver.constructor | src/audio/audio_receiver.cpp:24-30 | the bounds satisfy 1 <= initial < max for all 32-bit durations but one: the largest initial one in frames of at most a millisecond, where initial + 1 wraps |
| JitterBuffer.CountCovers | src/audio/audio_receiver.cpp:151-155 | a bound is the least number of frames that covers its duration, and at least one |
| JitterBuffer.AudioReceiver.PushPacket | src/audio/audio_receiver.cpp:49-121 | late, duplicate, stored or started over, case by case; from the initial count on the whole run from the expected number is played, each number with its packet, and a gap is passed over, once, only in front of a full buffer; it succeeds exactly when something was played, there is a callback, and the callback took all of it |
| JitterBuffer.PushHandled | src/audio/audio_receiver.cpp:49-121 | the specification has that outcome for every packet in every state |
| JitterBuffer.AudioReceiver.Deliver | src/audio/audio_receiver.cpp:112-120 | every packet is offered to the callback, whatever it said about the ones before |
| JitterBuffer.AudioReceiver.DrainReady | src/audio/audio_receiver.cpp:157-171 | plays in sequence from the expected number on |
| JitterBuffer.AudioReceiver.MaybeSkipLoss | src/audio/audio_receiver.cpp:173-190 | ends, and gives up only gaps in front of the first entry |
| JitterBuffer.AudioReceiver.Reset | src/audio/audio_receiver.cpp:123-136 | discards what is buffered |
| JitterBuffer.PushCounts | src/audio/audio_receiver.cpp:49-121 | received = late + duplicate + delivered + buffered + discarded, and the buffer stays below its bound |
| JitterBuffer.FirstAhead | src/audio/audio_receiver.cpp:177-187 | before the wrap the first entry is the nearest ahead and its 16-bit distance is exact |
| JitterBuffer.DeltaIsShortest | src/audio/audio_receiver.cpp:157-160 | the 16-bit difference is the shortest way between two numbers, around the wrap too |
| JitterBuffer.PlayStraight | src/audio/audio_receiver.cpp:157-190 | before the wrap playing is strictly rising and advances by played plus lost |
| JitterBuffer.PushKeepsConsistent | src/audio/audio_receiver.cpp:49-190 | for every run: an epoch has played something if and only if it has stored the initial count, and first of all the packet it began with; conservation and bounds always; rising delivery and exact loss counting until an epoch accepts a number past the wrap |
| NtpClock.AddNsToNtp | src/audio/audio_manager.cpp:67-85 | adds the delta in units of 2^-32 s, rounded down once, modulo 2^64 |
| NtpClock.NtpDiffToNs | src/audio/audio_manager.cpp:87-111 | 0 for a stamp that is not later, else the time between the two in nanoseconds, rounded down once |
| NtpClock.DiffOfSum | src/audio/audio_manager.cpp:67-111 | for every base and delta short of overflow the round trip gives d or d-1, and d exactly when its part below a second is a multiple of 5^9 ns |
| NtpClock.OffsetMonotone | src/audio/audio_manager.cpp:67-85 | advancing is monotone in the delta, across the carry |
| NtpClock.PlaybackTimeline.NextPts | src/audio/audio_manager.cpp:720-733 | presentation times never decrease over any packet sequence, exactly unless the 64-bit sum for a late packet wraps |

## Left out

- Sockets, gRPC, protobuf, GStreamer, V4L2, CUDA, OpenCV, ROS publishing, logging, HMAC and parameter loading: foreign calls.
- Condition variables and their time-outs: a wait that fails is a call that finds the queue empty.
- Threads and mutexes: steps are atomic at the granularity of the locks; the clock is read with the pacer call it is for.
- The FEC table's JSON reader: the table is a parameter, with at most 128 sources and parities in a group; the shipped table has at most 32 and 8.
- A change of the pacer's configuration while it runs: rate conformance is for one configuration. Of a session reset, the numbering that starts over and the handshake are not part of the loop's model.
- Pacers.RateConformance: its constant, the largest burst and one packet, is for configurations whose base debt has room for that; PacerLimits says which others are bounded, with another constant, and which are not.
- PacerLimits.RateBoundedExactly: where the burst is capped at a positive amount below a microsecond's worth of the top rate, and below the base debt, only the half of PacerLimits.LittleRoomIsBounded is proved; what such a pacer can gain depends on the rates in between.
- FrameWindows.FrameLosesExactly: not for the frame id 0xFFFFFFFF, which the queue takes for no protection at all.
- SliceTypes.ContainsH264ISlice: the program defines containsH264ISlice and does not call it.
- EvictionOrder.EvictionInTurn: for queues whose parity comes in datagrams and agrees in each group on the keyframe flag, as the frame builder makes it. It does not promise that whole keyframe groups go last; the program looks at the item's flag, which the end-of-frame item never carries, so such a group counts as one with plain items.
- SendQueues.SendQueue.Pop: taking the raw front lies outside the five-FIFO refinement; the send thread does not use it.
- JitterBuffer.PushKeepsConsistent: does not claim playing order across the wrap of the 16-bit numbers, because the buffer is ordered by the raw number.
- FrameTimestamps.UnitsGetTheirFramesTime: frames of more units than configured, and drivers that stamp a unit with another frame's time, are not covered.
- AnnexB.ScannersInvertJoin: the format is given; its detection is not modelled, since a length prefix 00 00 01 xx looks like a start code.
- PeerSetup.NeverCreditedToWrongPeer: direct mode, which credits streams without a peer, is not covered; a failed apply of the audio configuration leaves it unchanged, as validation has already compared what apply compares; the timer's own look at the session state only decides whether a call begins.
- FrameBuffers.VideoPipeline.EncodeLoop: the pipeline's stop and the retirement of its pools are not covered; converter and undistorter differ in how they fill a buffer, which is not modelled.
- Fec.FecV2.BuildParityInto: frames of more than 255 fragments per group, where the 8-bit group counter wraps and the coefficient row is read past its end, are excluded; its callers send parity only below 256 fragments.
- NtpClock.DiffOfSum: deltas that run past the 32-bit seconds are excluded.
- Recorder, eye-image processing, undistortion maps, pose publishing, telemetry encoders and the UDP control channel: input and output, or easy.

# Data acquisition chain: a verified model

This project models the chain that brings events from the DAQ card to coincidences, and proves what it is for:

- the multi-threaded **event pipeline**: stages that farm their buffers out to thread pools and yet hand
  results on in push order, and that always come to an end (`Pipeline*.dfy`);
- **event building**: coarse sorting, calibration, grouping of hits into photons and pairing of photons,
  with two searches that end early (`Events`, `CoarseSorter`, `CalibrationFormulas`, `ProcessHit`, `Grouping`,
  `EnergySort`, `SimpleGrouper`, `CoincidenceGrouper`, `Exhaustiveness`, `OverlapBound`);
- the **rings and streams** in front of it: wrap-bit pointers (`WrapRing`), the shared-memory frame ring with its
  two-phase reset (`FrameRing`, `RingPlaces`, `RingSafety`, `RingReset`, `SharedMemory`), the frame parser with
  the memory it writes to (`FrameParser`), what it makes of streams (`FrameStream`, `FrameFilter`) and how both
  views of the ring agree (`RingRefinement`), the double buffer of the card (`DoubleBuffer`), the driver's read
  call (`DmaRead`) and the two together (`CardStream`), and the acquisition loop (`Acquire`);
- the **raw file**: frames and event words (`RawFrames`, `RawRecords`), the writer with its suppression of
  empty and lost frames (`WriteRaw`, `RawWriter`), calibration compression (`CalibrationSet`), the statistics
  printer (`PrintRaw`), the reader (`HitTimes`, `RawBatches`, `RawReader`) and both together (`RawChain`);
- **time-tag unwrapping** of version 1 data (`DAQv1`);
- **ASIC configuration fields** (`ConfigBits`, `ConfigFields`, `ConfigCapacity`).

`Arithmetic`, `ByteWords`, `Options` and `Sequences` hold what several of these need.

Code that changes state is a class with methods, or a method with loops, tied by its `ensures` to a function of
values about which the properties are proved. Code that runs in several threads is a step system: one step is
what one thread does between two points where another can intervene, a run is any sequence of steps, and
wake-ups go to any sleeper and may be spurious.

`dafny verify dfyconfig.toml` checks everything.

## Where the code departs from its documentation or its names

- `src/raw_data/write_raw.cpp:188-193` gives lost frames the names of good ones and the other way round. Most of
  the time that is harmless, as only equality of names matters, but skipped IDs are recorded under
  `FRAME_TYPE_ALL_LOST` (line 150). A good empty frame right after skipped IDs is then left out and reads as lost.
  `WriteRaw.RecoversIff` gives the exact condition, and shows that with the intended names nothing is ever wrong.
- `src/petsys_util/print_raw.cpp:97` sets `firstFrame`, which is never cleared, so that line 119 never counts the
  IDs left out between two records, contrary to the comment at lines 114-118. The totals are right if and only if
  no ID is left out there (`PrintRaw.PrintStep`); `PrintRaw.TotalFallsShort` is a step where they are not. Even
  then they cover the IDs from `startFrame` up to but not including `endFrame` (line 174), and a step without
  records, whose index entry says -1 for both, counts as -2 frames.
- `src/base/CoarseSorter.cpp:21` is not the lexicographic order that it looks like. On the entries that
  `handleEvents` makes it is nevertheless the order of the coarse times, and a strict weak order
  (`CoarseSorter.LessIsCoarseTime`).
- The early ends of the searches (`src/base/SimpleGrouper.cpp:105`, `src/base/CoincidenceGrouper.cpp:37`) lose
  nothing, for all raw hits and calibrations, if and only if 3 clock cycles, the span of the calibration
  corrections and what can be reached of the group window and the coincidence window stay within `overlap` and the
  coincidence window (`OverlapBound.BoundIsExact`). For spans of one cycle or more everything can be reached, so
  that the coincidence window does not matter (`OverlapBound.BoundFromOneCycle`): the default group window of 20
  (`src/base/SystemConfig.cpp:110`) then leaves 17 cycles for the corrections. For smaller spans only whole cycles
  less a correction can be.
- `src/daqd/DAQFrameServer.cpp:226` compares the frame size with the number of slots (16384), not with the 2048
  words that a slot has room for. A frame in between is stored over the slots behind its own before its trailer is
  looked at (line 251). `FrameStream.StaysIff` and `FrameStream.StoresStayIff` say exactly when that happens,
  `RingSafety.ReadsWholeIff` that the consumer always finds what was published if and only if it does not, and
  `FrameStream.BigFrameSpoilt` is a frame of 2050 words that is published and then spoilt by the next one.
- `src/daqd/PFP_KX7.cpp:292` reads to the beginning of the half again after a short read. The words delivered are
  right for all schedules if and only if every read is full (`DoubleBuffer.FullReadsIff`), which those of the
  driver are (`DmaRead.PsdaqDevice.Read`, `CardStream.CardIntegrity`).
- `src/raw_data/RawReader.cpp:231` asserts that a frame has fewer than 2048 words, although a slot of the ring and
  the reader's own buffer have room for 2048. A frame of that size is written to the file, and reading the step
  then fails, and only then (`RawChain.ReadBack`).
- The counter of missing energy calibrations (`src/base/ProcessHit.cpp:128`) has a mask that covers the flags of
  missing time and charge calibrations and no other that is ever set, so it counts those
  (`ProcessHit.CountersAddUp`).
- `compile_cfg_map` (`src/petsys_py_lib/tofhir2.py:16-35`) accepts fields beyond the length that it is given; Python
  then counts from the other end, and such a field may share its place with another, which then loses its value
  (`ConfigCapacity.AcceptedMayClash`, `ConfigCapacity.DefaultLost`). The fields of an accepted layout can all have
  any values at the same time if and only if no bit number is another one plus the total length
  (`ConfigCapacity.AcceptedHoldsIff`).
- `src/petsys_py_lib/tofhir2.py:12-13` is meant to run upward when the bits are given in the wrong order, but its
  range is always empty (`ConfigFields.BitRangeBits`).
- `src/raw_data/DAQv1Reader.cpp:204` tolerates steps of half a period inclusive (`DAQv1.StepBound`).
- `freq` in `src/raw_data/write_raw.cpp:23` is an `int`, so that an event word seen 2^31 times or more does not
  come back (`CalibrationSet.ExpandsToEvents`).

## Model

| member | source | states |
|---|---|---|
| PipelineTheorems.DeliveredInOrder | src/base/OverlappedEventHandler.tpp:23-46 | Under every interleaving, at every moment, each sink has received, in push order and once each, what the stages before it make of the first so many inputs |
| PipelineTheorems.DeliveredByFinish | src/base/OverlappedEventHandler.tpp:39-46 | Once `finish()` has returned, every sink has received the image of every input, in order, and no job is left |
| PipelineTheorems.SafeAccess | src/base/ThreadPool.cpp:57-138 | Threads work only on jobs that exist and that no other thread has; the main thread deletes only jobs out of every thread's reach; queues stay within their bounds; no pool dies while a job is left |
| PipelineTheorems.HandledOnce | src/base/OverlappedEventHandler.tpp:93-107 | `handleEvents` runs at most once for each pushed buffer, and exactly once for each when `finish()` has returned |
| PipelineTheorems.HandledInOrder | src/base/OverlappedEventHandler.tpp:2-13 | On a stage with one worker the calls of `handleEvents` start in push order |
| PipelineTheorems.NeverOverlap | src/base/OverlappedEventHandler.tpp:2-13 | On such a stage two calls of `handleEvents` never overlap |
| PipelineTheorems.WakesOwnPool | src/base/ThreadPool.cpp:57-138 | The main thread wakes no sleeper but one of the pool that gets a job, and those of the pool that is closed |
| PipelineSafety.RunKeeps | src/base/ThreadPool.cpp:80-168 | Every step of every thread, including spurious wake-ups, keeps the invariant that relates mutexes, wait sets, queues, jobs, deques and what was received |
| PipelineSafety.NothingLeft | src/base/ThreadPool.cpp:57-70 | When `die` is set no job exists and every queue is empty |
| PipelineProgress.QueueMoves | src/base/ThreadPool.cpp:80-92 | No wake-up is lost: as long as a queue holds a job, and unless the main thread holds a mutex, a thread of that pool is awake and can move |
| PipelineProgress.CanMove | src/base/ThreadPool.cpp:80-138 | No deadlock: until everything is finished some thread has a step other than a spurious wake-up |
| PipelineTermination.RunSpends | src/base/ThreadPool.cpp:107-138 | Every step uses up a budget that only spurious wake-ups replenish, by a fixed amount |
| PipelineTermination.Terminates | src/base/OverlappedEventHandler.tpp:39-46 | Every run ends: a bound on its length in terms of inputs, stages and threads, and all threads joined at the end |
| Events.EventBuffer.GetWriteSlot | src/base/EventBuffer.hpp:77-85 | There is always a slot to write to, and growing the buffer loses no element |
| Events.EventBuffer.Push | src/base/EventBuffer.hpp:91-94 | The contents grow by the pushed element at the end |
| Events.EventBuffer.Reserve | src/base/EventBuffer.hpp:68-75 | The buffer never shrinks, and growing it loses no element |
| CoarseSorter.LessIsCoarseTime | src/base/CoarseSorter.cpp:21 | On the entries made by `handleEvents` the comparison is that of the coarse times |
| CoarseSorter.SortedPick | src/base/CoarseSorter.cpp:42-49 | Whatever order `std::sort` leaves equal entries in, following it gives a permutation of the hits in coarse time order |
| CoarseSorter.CoarseSorter.HandleEvents | src/base/CoarseSorter.cpp:24-53 | The output is such a permutation of the input |
| CoarseSorter.CoarseDisorder | src/base/CoarseSorter.cpp:35-40 | After sorting, a hit precedes an earlier one by at most 3 cycles, for times that are not negative |
| ProcessHit.ProcessHit.HandleEvents | src/base/ProcessHit.cpp:26-146 | Although one write slot is reused for all, the output is exactly the valid hits that are of the trigger or have every calibration in use, in their order; of each, time, end time, energy, region and place stand in the stated relation to the raw hit and the tables; each of the seven counters grows, modulo 2^32, by the number of hits it is for |
| ProcessHit.CompleteSent | src/base/ProcessHit.cpp:117-134 | The raw hits that come out are exactly those with nothing missing, each calibrated as its channel's tables say |
| ProcessHit.CountersExact | src/base/ProcessHit.cpp:123-134 | Each counter counts exactly the hits that lack what it is named for, and the hits received and not sent are exactly those that lack anything |
| CalibrationFormulas.FineTimeSolves | src/base/ProcessHit.cpp:67 | The fine time solves the quadratic equation of the calibration, and is its solution on the rising branch |
| CalibrationFormulas.SumIsHorner | src/base/ProcessHit.cpp:88-98 | The pedestal's ten terms are the polynomial evaluated from the inside out |
| ProcessHit.CountersAddUp | src/base/ProcessHit.cpp:123-134 | Every hit received is sent or dropped for a counted reason; what is sent is the output; the counter of missing energy calibrations counts hits without a time or a charge calibration |
| ProcessHit.ProcessDisorder | src/base/ProcessHit.cpp:65-69 | The disorder of the times grows by no more than the span of the corrections |
| Grouping.Partition | src/base/SimpleGrouper.cpp:83-125 | The groups partition the valid hits |
| Grouping.GroupShape | src/base/SimpleGrouper.cpp:107-114 | Each group is a seed and later valid hits with an allowed pair of regions, times at most the window apart and places at most the distance apart in x, y and z; groups come in the order of their seeds |
| Grouping.GroupMaximal | src/base/SimpleGrouper.cpp:98-125 | When a group closes, every later valid hit within those limits of its seed has been taken |
| Grouping.GroupsExact | src/base/SimpleGrouper.cpp:83-125 | With the early end or without: a group has its seed and exactly the later valid hits that no group before it has, that are within its limits, and that the search reaches |
| Grouping.GroupsStopLosesNone | src/base/SimpleGrouper.cpp:104-105 | With disorder of at most `overlap`, grouping with the early end equals grouping with full scans |
| EnergySort.BubbleSort | src/base/SimpleGrouper.cpp:134-146 | The in-place sort ends (each pass with a swap reduces the inversions) with the same hits by non-increasing energy, those of equal energy in their order |
| EnergySort.ByEnergySorts | src/base/SimpleGrouper.cpp:134-146 | That order is a permutation with non-increasing energies |
| SimpleGrouper.Collect | src/base/SimpleGrouper.cpp:92-125 | The inner loop takes exactly the seed's group and keeps its first `maxHits` hits |
| SimpleGrouper.SimpleGrouper.HandleEvents | src/base/SimpleGrouper.cpp:54-198 | The output has exactly one photon for each group that is not too large and whose highest energy is within the limits, in order, with the group's hits and the strongest one's time, energy, region and place; each counter, and each count by size, grows by the number of groups it is for |
| SimpleGrouper.PhotonsNear | src/base/SimpleGrouper.cpp:107-114 | All hits of a photon in the output are within the limits of region, time and place of one of them |
| SimpleGrouper.TallyExact | src/base/SimpleGrouper.cpp:167-183 | Each counter is the number of groups of its kind |
| SimpleGrouper.PhotonHoldsGroup | src/base/SimpleGrouper.cpp:127-182 | A photon that is passed on holds its whole group, never a truncated one, by non-increasing energy, and takes its data from the strongest hit |
| SimpleGrouper.TallyAddsUp | src/base/SimpleGrouper.cpp:167-183 | Photons found are the sum of the counts by size and the overflow; passed is the size of the output |
| SimpleGrouper.ValidHitsAddUp | src/base/SimpleGrouper.cpp:83-125 | The valid hits are the sum of the untruncated group sizes |
| CoincidenceGrouper.CoincidenceGrouper.HandleEvents | src/base/CoincidenceGrouper.cpp:24-56 | The coincidences are, in lexicographic order, those of exactly the pairs with allowed regions and times within the window that the search reaches; each has the two photons of its pair, not the lower region first, and of equal regions the later photon |
| CoincidenceGrouper.PairsExact | src/base/CoincidenceGrouper.cpp:32-53 | The full search finds exactly the pairs of allowed regions with times at most the window apart, each once, in lexicographic order |
| CoincidenceGrouper.StopLosesNoneIff | src/base/CoincidenceGrouper.cpp:32-53 | The pruned search finds the same pairs if and only if no prompt partner comes after a photon at which the search for it ends |
| CoincidenceGrouper.PairsStopLosesNone | src/base/CoincidenceGrouper.cpp:37 | With disorder of at most `overlap`, the pruned search finds the same |
| Exhaustiveness.PhotonDisorder | src/base/SimpleGrouper.cpp:149-183 | The photons' times are out of order by at most the hits' disorder and the group window together |
| Exhaustiveness.CoincidencesExhaustive | src/base/CoincidenceGrouper.cpp:32-53 | From raw hits to coincidences: with non-negative times and under the exact condition on windows, corrections and `overlap`, exactly the prompt pairs come out, once each and in order, despite both early ends |
| OverlapBound.BoundIsExact | src/base/OverlappedEventHandler.hpp:18 | For any windows and any span c of the corrections: the early ends lose nothing, for all raw hits, sorted orders and calibrations, if and only if 3 + c and what whole cycles less a correction reach of the two windows is within `overlap` plus the coincidence window; otherwise four raw hits on four channels lose a pair |
| OverlapBound.BoundFromOneCycle | src/base/OverlappedEventHandler.hpp:18 | For c of at least one cycle that is so if and only if 3 + c + W is within `overlap`; for smaller c that is sufficient, but not necessary |
| WrapRing.PointersSuffice | src/daqd/DAQFrameServer.cpp:163-166 | For every reachable state the two pointers determine the occupancy, `isFull` holds exactly when all slots are in use, and equality exactly when none is |
| WrapRing.BitTestsAreFull | src/daqd/PFP_KX7.cpp:278 | The two-bit test of the double buffer and the five-bit test of the command slots (line 219) are that test for 2 and 16 slots |
| WrapRing.FoldedIsOccupancy | src/petsys_py_lib/daqd.py:1314-1316 | The folded pointer distance is the occupancy for every reachable pointer pair |
| RingSafety.RingSafe | src/daqd/DAQFrameServer.cpp:236-275 | Over all runs with frames that fit a slot: occupancy within bounds, exact full test, consumed frames a prefix of the published ones, and the slot being filled outside the lock never in the consumer's window |
| RingSafety.ReadsWholeIff | src/daqd/DAQFrameServer.cpp:226-251 | For every ring of two slots or more: the consumer always reads what was published, in every run with frames up to a limit, if and only if that limit is the 2048 words of a slot or less |
| RingReset.TwoPhaseReset | src/daqd/FrameServer.cpp:78-103 | If the frame in flight at the first reset is done with before the second, at most one stale frame is published in between; from the second on every published frame was met after it and is at the index it was claimed for, and if those frames fit a slot the ring is safe |
| RingReset.WipeIsSafeIff | src/daqd/FrameServer.cpp:105-113 | After a single wipe that holds if and only if no slot but the first is claimed at that moment |
| FrameRing.FrameServer.WipePointers | src/daqd/FrameServer.cpp:86-91 | Both pointers and the mode are 0 afterwards, and the slots are as before |
| FrameRing.FrameServer.Restart | src/daqd/FrameServer.cpp:95-101 | Both pointers are 0 afterwards, the mode is the new one, and the slots are as before |
| FrameRing.FrameServer.ClaimSlot | src/daqd/DAQFrameServer.cpp:237-245 | A slot is claimed as the step system says, and none when the ring is full |
| FrameRing.FrameServer.PublishSlot | src/daqd/DAQFrameServer.cpp:271-275 | Publishing advances the write pointer modulo twice the number of slots |
| FrameRing.FrameServer.SetDataFrameReadPointer | src/daqd/FrameServer.cpp:138-144 | The consumer gives back exactly the slots that it passes |
| FrameRing.FrameServer.FillSlot | src/daqd/DAQFrameServer.cpp:249-251 | Storing a frame changes its slot and, for each further 2048 words, the slots behind |
| FrameParser.DAQFrameServer.ClaimSlot | src/daqd/DAQFrameServer.cpp:231-245 | A frame gets the next slot's address exactly if it is not dropped, acquisition is on and fewer slots than there are wait for the consumer |
| FrameParser.DAQFrameServer.DoWork | src/daqd/DAQFrameServer.cpp:186-276 | The parsing loop meets the frames that the stream function says, and leaves shared memory as their words, stored one after the other from their slots' addresses on, make it |
| FrameStream.StaysIff | src/daqd/DAQFrameServer.cpp:226-251 | For every stream and ring: all stores stay in their slots if and only if the parser acts on no size word between 2049 and 16384 behind which the stream goes on for more than 2048 words of the frame |
| FrameStream.StoresStayIff | src/daqd/DAQFrameServer.cpp:226-251 | For the streams that the card sends: if and only if no frame has more than 2048 words |
| FrameStream.UnreadWhole | src/daqd/DAQFrameServer.cpp:236-275 | If no store leaves its slot, every published frame that the consumer has not given back is whole in memory |
| FrameStream.ReadsEveryFrame | src/daqd/DAQFrameServer.cpp:196-276 | From the bad state, after any words up to an idle one, every frame sent is read, in order, whatever its payload |
| FrameStream.RecoversEveryFrame | src/daqd/DAQFrameServer.cpp:196-276 | If the frames have room in the slots, all that are not dropped and find a slot are published in order, and those not given back are whole in memory |
| FrameStream.ReadSent | src/daqd/DAQFrameServer.cpp:168-279 | The worker on such a stream, with any acquisition mode and any progress of the consumer, leaves exactly that in shared memory |
| FrameStream.BigFrameSpoilt | src/daqd/DAQFrameServer.cpp:226 | A frame of 2050 words is published, and the next frame overwrites the end of it |
| FrameStream.OnlySized | src/daqd/FrameServer.cpp:185-200 | Whatever the stream, a published frame has the length that both counts in its header say |
| FrameStream.KeepsAllData | src/daqd/DAQFrameServer.cpp:231-234 | With room in the ring and in the slots, the 1-in-128 filter never drops a frame that has events or is not lost |
| FrameFilter.PublishesKept | src/daqd/DAQFrameServer.cpp:226-275 | From the bad state, after any words up to an idle one and with room in the ring: the frames published are exactly, in order, those with events, those without the lost mark, and those whose number is a multiple of 128 |
| FrameFilter.ReadKept | src/daqd/DAQFrameServer.cpp:168-279 | The worker on such a stream leaves the k-th of these frames, whole, in the k-th slot of 2048 words |
| FrameFilter.OneIn128 | src/daqd/DAQFrameServer.cpp:231-234 | Of any 128 successive frames without events and with the lost mark exactly one is published |
| RingRefinement.WorkerIsRun | src/daqd/DAQFrameServer.cpp:163-276 | With acquisition on, whatever stream the worker reads and however far the consumer is, its frames are those of a run of the slot-level ring, published at the same indices; where a slot has a whole frame, memory has its words, and if all frames have room in a slot that covers every frame not given back |
| DoubleBuffer.StreamIntegrity | src/daqd/PFP_KX7.cpp:125-166 | With full reads, under every interleaving, what `getWords` returns is a gap-free beginning of the device's words; each call returns exactly as many as asked for; the half being filled is not the one being copied; no deadlock |
| DoubleBuffer.FullReadsIff | src/daqd/PFP_KX7.cpp:289-295 | What the callers get is a beginning of the device's words for all schedules if and only if every read returns all that it was asked for |
| DmaRead.PsdaqDevice.Read | src/kernel/psdaq.c:346-377 | A read delivers exactly `count` bytes, the next ones, across any number of transfers |
| CardStream.FillHalf | src/daqd/PFP_KX7.cpp:289-295 | On the driver's read call the loop fills the half with the next words of the stream |
| CardStream.CardIntegrity | src/daqd/PFP_KX7.cpp:125-166 | From the driver's bytes to the callers: in every run on the driver's stream, what `getWords` returns is a gap-free beginning of the words of that stream |
| Acquire.FramesInBlock | src/petsys_py_lib/daqd.py:1314-1329 | A block has as many frames as there are, at most as many as needed and at most half the ring |
| Acquire.RunAcquire | src/petsys_py_lib/daqd.py:1299-1342 | From any state of the ring, the blocks follow one another inside the published window from the read pointer on; with at least one required frame the loop ends with `currentFrame == stopFrame`, having consumed exactly `startFrame` to `stopFrame` |
| RawFrames.EventRoundTrip | src/raw_data/event_decode.hpp:20-34 | Packing any field values into the two words of an event, bit by bit and with anything in the spare bits, and decoding gives them back, qfine across the boundary included |
| RawFrames.EveryPairCarries | src/raw_data/shm_raw.hpp:39-50 | Any two words are those of some event |
| RawFrames.HeaderRoundTrip | src/raw_data/shm_raw.hpp:17-36 | Packing any ID, size, loss marks and number of events into the two header words and reading them gives them back |
| RawFrames.WordsCarryEvent | src/raw_data/shm_raw.hpp:39-50 | The two words join to the word of 98 bits whatever is in the spare bits |
| RawRecords.DecodedLooksBack | src/petsys_util/print_raw.cpp:114-118 | An ID without a record is read as empty and as lost as the last record before it |
| RawRecords.NextRecord | src/petsys_util/print_raw.cpp:105-108 | In the words of a file each record is found again by the size in its header |
| WriteRaw.RecordsExact | src/raw_data/write_raw.cpp:121-212 | For any frames in any blocks and any order of IDs: exactly which records are written; left out are, outside the last block, empty frames as lost as an empty frame right before, and good empty frames after missing IDs |
| WriteRaw.RecoversIff | src/raw_data/write_raw.cpp:121-212 | For any frames with increasing IDs, in any blocks, the records give back loss and events of every ID from first to last if and only if no skipped IDs are directly followed by a good empty frame outside the last block; with the intended names, always |
| WriteRaw.FramesComeBack | src/raw_data/write_raw.cpp:121-212 | In a step without such a gap every frame that came is read back as it was, and every ID in between that never came as lost |
| WriteRaw.LabelsMatter | src/raw_data/write_raw.cpp:188-193 | A step where the code as written goes wrong and the intended names do not |
| WriteRaw.StatisticsHold | src/raw_data/write_raw.cpp:133-184 | The step's statistics count every ID from first to last once: all frames, those with all and those with some events lost, and events |
| WriteRaw.FirstAndLast | src/raw_data/write_raw.cpp:125-131 | The step's first and last ID are those of its first and last frame, in whatever order the IDs come |
| RawWriter.Writer.WriteFrame | src/raw_data/write_raw.cpp:121-212 | One turn of the loop has the effect that the step function says on variables, file and calibration set |
| RawWriter.Writer.ProcessBlock | src/raw_data/write_raw.cpp:113-263 | A block appends the frames of its pointer window to the step; an end of step enters the step in the index and starts afresh; at any time each index entry spans exactly the words of its step's records, or its compressed events |
| RawWriter.WindowIs | src/raw_data/write_raw.cpp:113-120 | The frames of a pointer window are those published and not given back, in order |
| CalibrationSet.Compress | src/raw_data/write_raw.cpp:216-231 | The walk ends; the records have strictly increasing words, exactly those that occurred, with their multiplicity as an `int` |
| CalibrationSet.ExpandsToEvents | src/raw_data/write_raw.cpp:166-173 | The expansion of the records is the multiset of the step's events if and only if no word occurred 2^31 times or more |
| CalibrationSet.FrequenciesPositive | src/raw_data/write_raw.cpp:219-228 | Every frequency is then at least 1 |
| PrintRaw.PrintStep | src/petsys_util/print_raw.cpp:94-180 | The total is `endFrame - startFrame` if and only if no ID is left out between records; the lost frames are those the file says are lost, if and only if none is left out after a lost record; a step without records counts as `endFrame - 1` |
| PrintRaw.TotalFallsShort | src/petsys_util/print_raw.cpp:119-120 | A step of three frames whose total is one short |
| PrintRaw.LostIsLost | src/petsys_util/print_raw.cpp:114-121 | Where the writer recovers a step, the IDs the file says are lost are as many as the acquisition lost |
| HitTimes.LaterUnique | src/raw_data/RawReader.cpp:286-292 | The end times are the only values in the 1024 cycles from t1 on with the given residues |
| HitTimes.EarlierUnique | src/raw_data/RawReader.cpp:289-293 | The previous event's time is the only value in the 4096 cycles before t1 with the given residue |
| HitTimes.TimesComeBack | src/raw_data/RawReader.cpp:286-298 | Times within reach of the counters are read back exactly |
| RawReader.Reader.ReadFromDataFile | src/raw_data/RawReader.cpp:169-195 | However short the reads are, exactly `count` bytes are delivered, the next ones of the file, and the rest of the target stays |
| RawReader.Reader.BufferFor | src/raw_data/RawReader.cpp:240-249 | A frame goes into a buffer that has room for it and whose first frame is at most 2^32 before it, and not after it if IDs never decrease |
| RawReader.Reader.ProcessStep | src/raw_data/RawReader.cpp:197-310 | Reading a step fails if and only if a frame has 2048 words or more; otherwise, whatever the frame IDs are, the hits pushed are, one for one and in file order, the events that the words of the frames carry: each with the event's own fields, and with its time base added the event's times; buffers have 1 to 4096 hits; if IDs never decrease, a buffer spans at most 2^32 frames and all its times lie within it |
| RawChain.EventsSurvive | src/raw_data/write_raw.cpp:121-212 | Whatever the writer leaves out, the records have exactly the events of the frames, in order, for any frames in any blocks |
| RawChain.WrittenIsReadable | src/raw_data/RawReader.cpp:221-239 | For any frames, in any order of their IDs: the records of the step hold the events of the frames, are short enough for the reader exactly if the frames are, and have IDs that never decrease if those of the frames do not |
| ByteWords.WordsOfBytes | src/raw_data/write_raw.cpp:207-210 | Words written as bytes are read as the same words |
| RawChain.IndexedIsReadable | src/raw_data/RawReader.cpp:123-126 | At any time, every step in the index lies in the file, between the offsets given there, as the reader expects it |
| RawChain.ReadBack | src/raw_data/RawReader.cpp:197-310 | Writer, file, index and reader together, for any step in the index and any frame IDs: reading fails exactly if a frame of 2048 words or more was written; otherwise the hits that the sink gets are, one for one and in order, the events carried by the words of the frames that the writer got, with their fields and absolute times |
| RawChain.EventsCounted | src/raw_data/write_raw.cpp:175-176 | The number of events that the writer counts is that of the hits |
| DAQv1.ProcessStep | src/raw_data/DAQv1Reader.cpp:162-212 | A line gets a tag exactly if it is readable, bit 87 of its event is clear and its e-link is 9 to 20: its own tag plus the wrap-arounds seen so far on the reference e-link, less the first tag |
| DAQv1.UnwrapsToTrueTime | src/raw_data/DAQv1Reader.cpp:194-212 | If the reference e-link's true times never decrease, nor jump by more than half a period, each of its events gets its true time from the first one on |
| DAQv1.UnwrapsIff | src/raw_data/DAQv1Reader.cpp:196-212 | Any other event gets its true time if and only if it is in the same period as the last reference event before it |
| DAQv1.ReferenceIs | src/raw_data/DAQv1Reader.cpp:185-203 | For links below 2^24 the reference events are those of link and e-link of the first accepted line |
| DAQv1.StepBound | src/raw_data/DAQv1Reader.cpp:39-40 | The top-bit test counts the crossings right from every start if and only if the step is at most half a period |
| ConfigBits.IntToBin | src/petsys_py_lib/bitarray_utils.py:4-17 | So many bits that spell the value clamped to what they can hold |
| ConfigBits.BinToInt | src/petsys_py_lib/bitarray_utils.py:19-26 | The number that the bits spell |
| ConfigBits.ValueDetermines | src/petsys_py_lib/bitarray_utils.py:19-26 | Bits of a given length are determined by that number |
| ConfigBits.BitOfValue | src/petsys_py_lib/bitarray_utils.py:19-26 | Each bit is that of the number at its place, the last bit being the lowest |
| ConfigFields.BitRangeBits | src/petsys_py_lib/tofhir2.py:7-13 | A bit range has exactly the bits from lsb to msb, in decreasing order, so none if they are swapped |
| ConfigFields.FieldsInLayout | src/petsys_py_lib/tofhir2.py:16-35 | The j-th field of the n-th group has an entry behind those before it, with its default and the bits from lsb to msb counted from the end of the groups before |
| ConfigFields.CompileCfgMap | src/petsys_py_lib/tofhir2.py:16-35 | A layout is accepted if and only if all its fields are pairwise disjoint |
| ConfigFields.AbstractConfig.SetBits | src/petsys_py_lib/tofhir2.py:73-78 | The field has the given bits, bit number b at the index b from the end, and no bit elsewhere changes; a wrong length or name changes nothing; an index that Python refuses fails |
| ConfigFields.AbstractConfig.GetBits | src/petsys_py_lib/tofhir2.py:82-88 | The bits of the field, read at these indices |
| ConfigFields.LastEntry | src/petsys_py_lib/tofhir2b.py:132-138 | Of several entries with one name the last one gives the field and its default |
| ConfigFields.AbstractConfig.SetValue | src/petsys_py_lib/tofhir2.py:65-68 | The field has the clamped value and every field that shares no place with it keeps its own |
| ConfigFields.AbstractConfig.GetValue | src/petsys_py_lib/tofhir2.py:92-94 | The value of the field |
| ConfigFields.SetDefaults | src/petsys_py_lib/tofhir2b.py:137-138 | After any sequence of settings, each field with no later setting in its places has the value set last, clamped; and so all have if the fields divide the bit array |
| ConfigFields.MakeDefault | src/petsys_py_lib/tofhir2b.py:119-141 | For any layout: it fails exactly when fields overlap or an index is refused; otherwise every field has its default value unless one set later is in a place of it, and all have if the fields divide the bit array |
| ConfigCapacity.AnyValuesIff | src/petsys_py_lib/tofhir2.py:65-94 | For any fields: whatever values they are to have, one array has them all, if and only if no place belongs to two bits |
| ConfigCapacity.AcceptedHoldsIff | src/petsys_py_lib/tofhir2.py:16-35 | For accepted layouts that is so if and only if no bit number of a field is another one plus the total length |
| ConfigCapacity.LayoutDivides | src/petsys_py_lib/tofhir2b.py:128-134 | The fields of an accepted layout within its length divide the bit array |
| ConfigCapacity.AcceptedMayClash | src/petsys_py_lib/tofhir2.py:16-35 | An accepted layout beyond its length whose two fields always have the same value |
| ConfigCapacity.DefaultLost | src/petsys_py_lib/tofhir2b.py:119-141 | With that layout a field whose default is 1 reads as 0 once the defaults have been set |

## Left out

- The graphical interface, shell scripts, ROOT trees, fits, calibration fitting, plotting and testers: foreign libraries and floating-point fitting.
- Sockets, client dispatch, register access, SPI and I2C sequences, start-up of the system: hardware plumbing.
- `DtFlyP` and `UDPFrameServer`: they would repeat the results about the frame ring.
- Floating-point rounding; times and energies are real numbers.
- ProcessHit.ProcessHit.HandleEvents: the square root is a function that is given; what comes of a calibration without a quadratic coefficient, where the code divides by zero, is left open.
- The diagnostic fields `qT1`, `qT2`, `xi` and `yi`, which nothing downstream tests.
- The links from a buffer to the buffers its events point into: events are copied here.
- Wall-clock time: the 220 ms sleep between the two resets appears as the assumption that the frame in flight is done with, and time-outs do not appear.
- The number of processors: a pool has any positive number of threads and any positive queue bound.
- FrameParser.DAQFrameServer.DoWork: does not model the `die` flag and negative results of `getWords`, which the card's `getWords` never returns, nor the lock, which is part of the frame ring; of a frame that goes to `devNull` only the number of words is followed.
- RingSafety.RingSafe: a run ends at the next reset; what a reset does is `TwoPhaseReset`.
- DoubleBuffer.StreamIntegrity: does not model stopping the thread, nor a restart, which does not reset `currentBuffer`; reads return whole words.
- DmaRead.PsdaqDevice.Read: does not model faults of `copy_to_user`, nor a card that stops delivering.
- Acquire.RunAcquire: takes frame IDs to be contiguous, and ends early when the given sequence of polls does; the answer of `write_raw` is the end of the block.
- FrameRing.FrameServer.SetDataFrameReadPointer: takes the client to move the pointer inside the published window.
- SimpleGrouper.SimpleGrouper.HandleEvents: takes `maxHits` to be between 1 and 256, as the clamp in the source does nothing.
- RawWriter.Writer.ProcessBlock: takes the slots of the window to hold well-formed frames; step values, messages, flushing, the header's contents, the largest frame of a step and write errors are not modelled; the data file is the sequence of its words, or of its calibration records, until `RawChain` turns the words into bytes.
- RawReader.Reader.ProcessStep: takes the step to consist of well-formed frames; does not model the accounting of lost frames, as empty frames are passed over before it.
- PrintRaw.PrintStep: does not model the histogram of frame sizes, the channel checks, or overflow of the 64-bit sums.
- DAQv1.ProcessStep: does not model the merge of the tag with the event's coarse time, whose masks are inconsistent, the reading of hexadecimal numbers, or overflow of the 64-bit times.
- `events_as_bytes` across a wrap of the pointers, and the agreement of `getChannelID` with other numberings of channels.
- Gray code conversion, the `reverse` option of the bit conversions and printing of configurations: no other part depends on them.

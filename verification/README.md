# FPL FFmpeg player: queue and synchronisation bookkeeping in Dafny

This project models the sequential bookkeeping at the heart of the FFmpeg
video player demo of Final's Platform Layer (`demos/FPL_FFMpeg/fpl_ffmpeg.cpp`).
Each queue operation is read as one atomic step: the mutexes in the player only
bracket sequential updates. The model covers these pieces:

- **Packet queue with epochs** (`packet_queue.dfy`, module `PacketQueues`).
  - The list of demuxed packets is a FIFO with `packetCount`, `size` and
    `duration` accumulators.
  - It keeps a `serial` counter that moves on only when the flush sentinel
    is queued.
  - Every queued packet is stamped with the serial current after it is added.
  - The pointer-identity flush sentinel is the `Flush` case of a `Packet`
    datatype.
  - The class's `Valid()` ties the accumulators to the list. It also states
    the *epoch chain*: each entry carries the serial of the entry before
    it, plus one exactly when it is a flush sentinel.
- **Frame ring buffer** (`frame_queue.dfy`, module `FrameQueues`).
  - The fixed array of 8 slots has a read index, a write index, a count and
    the "keep last" look-behind flag `readIndexShown`.
  - A ghost sequence `Contents` gives the committed frames in order. Every
    operation is specified against it.
- **Decisions** (`decisions.dfy`, `reader.dfy`, `audio_sync.dfy`).
  - The master-clock fallback and the mappings between the audio device's
    and the decoder library's sample formats.
  - The seek-request latch, the seek window the reader hands to the demuxer,
    the end-of-media restart/exit decision, and the re-priming of the packet
    queues after a seek.
  - The drift correction of the audio sample count, with the source's
    unsigned 32-bit arithmetic written out.
- **Decoder packet fetch** (`decoder.dfy`, module `Decoding`).
  - The decoder pops packets until it finds one of the queue's current
    epoch, and discards the older ones.
  - It reuses a packet the codec refused while that packet's epoch is
    still current.
  - It reacts to a flush sentinel and records the epoch whose end it
    reached.
- **Audio callback drain** (`audio_callback.dfy`, module `AudioCallback`).
  - The pull callback of the audio device first drains the staging buffer of
    converted audio. It then skips frames of old epochs, converts the next
    current frame, and writes silence when there is none.
  - It is a method over arrays with a loop. It is proved equal to the
    recursive reference definition `Drain`. Lemmas about `Drain` state what
    the device hears: the staged audio, then the current epoch's frames in
    queue order, then silence.

`wrappers.dfy` holds the `Option` datatype shared by the modules.

## Model

| member | source | states |
|---|---|---|
| PacketQueues.PacketQueue.constructor | demos/FPL_FFMpeg/fpl_ffmpeg.cpp:305-315 | a zero-initialised queue is empty, in epoch 0, with zero accumulators |
| PacketQueues.PacketQueue.PushPacket | demos/FPL_FFMpeg/fpl_ffmpeg.cpp:394-417 | the packet is appended at the tail and stamped with the queue's serial, which rises by exactly one iff the packet is the flush sentinel; count +1, size + payload + node size, duration + packet duration; the epoch chain is kept |
| PacketQueues.PacketQueue.PopPacket | demos/FPL_FFMpeg/fpl_ffmpeg.cpp:419-441 | fails exactly on an empty queue and then changes nothing; otherwise returns the oldest entry (FIFO), leaves the rest in order and subtracts its count, size and duration; the serial is unchanged |
| PacketQueues.PacketQueue.FlushPacketQueue | demos/FPL_FFMpeg/fpl_ffmpeg.cpp:358-372 | the queue is emptied and all accumulators are zero, the serial is unchanged; the walk frees every node once and releases the payload of every entry but the flush sentinels |
| PacketQueues.PacketQueue.PushFlushPacket | demos/FPL_FFMpeg/fpl_ffmpeg.cpp:457-466 | succeeds exactly when a node is available; then opens a new epoch (serial + 1) whose first entry is the sentinel; otherwise nothing changes |
| PacketQueues.PacketQueue.PushNullPacket | demos/FPL_FFMpeg/fpl_ffmpeg.cpp:443-455 | succeeds exactly when a node is available; then appends an empty packet for the stream in the current epoch, adding only the node size; otherwise nothing changes |
| PacketQueues.TotalSizeAppend | demos/FPL_FFMpeg/fpl_ffmpeg.cpp:410 | the size of a list grows by payload plus node size per appended packet |
| PacketQueues.TotalDurationAppend | demos/FPL_FFMpeg/fpl_ffmpeg.cpp:411 | the duration of a list grows by the duration of each appended packet |
| PacketQueues.FlushCountAppend | demos/FPL_FFMpeg/fpl_ffmpeg.cpp:337-341 | the number of flush sentinels grows by one exactly when a sentinel is appended |
| PacketQueues.EpochDistance | demos/FPL_FFMpeg/fpl_ffmpeg.cpp:398-401 | along an epoch chain the last serial is the first serial plus the number of flush sentinels after the first entry |
| PacketQueues.SerialsOrdered | demos/FPL_FFMpeg/fpl_ffmpeg.cpp:398-401 | serials never decrease from the head of the queue to its tail |
| PacketQueues.CurrentIffNoLaterFlush | demos/FPL_FFMpeg/fpl_ffmpeg.cpp:398-401 | an entry belongs to the queue's current epoch iff no flush sentinel follows it |
| PacketQueues.ChainAppend | demos/FPL_FFMpeg/fpl_ffmpeg.cpp:398-405 | appending an entry stamped with the tail's serial, plus one for a flush sentinel, keeps the epoch chain |
| PacketQueues.FlushSeparatesEpochs | demos/FPL_FFMpeg/fpl_ffmpeg.cpp:398-401 | entries on two sides of a flush sentinel have strictly ordered serials |
| FrameQueues.RingSlotIsMod | demos/FPL_FFMpeg/fpl_ffmpeg.cpp:554-620 | the slot `n` places after a slot, counted round the ring, is the index the queue computes with `% capacity` |
| FrameQueues.FrameQueue.constructor | demos/FPL_FFMpeg/fpl_ffmpeg.cpp:520-543 | capacity is the requested one capped at 8 slots, keep-last as given, queue empty at index 0 |
| FrameQueues.FrameQueue.PeekCurrent | demos/FPL_FFMpeg/fpl_ffmpeg.cpp:554-556 | when a frame is unshown, the frame returned is the oldest unshown committed frame |
| FrameQueues.FrameQueue.PeekNext | demos/FPL_FFMpeg/fpl_ffmpeg.cpp:558-560 | when there is one, the frame returned is the committed frame after the one to present |
| FrameQueues.FrameQueue.PeekLast | demos/FPL_FFMpeg/fpl_ffmpeg.cpp:562-564 | the frame at the read index is the oldest committed frame, and is the frame to present while none has been shown |
| FrameQueues.FrameQueue.RemainingCount | demos/FPL_FFMpeg/fpl_ffmpeg.cpp:622-624 | the count of committed frames not yet shown, between 0 and the count |
| FrameQueues.FrameQueue.PeekWritable | demos/FPL_FFMpeg/fpl_ffmpeg.cpp:566-580 | refused iff the queue is full or stopped; otherwise the slot is the write index, which holds none of the committed frames |
| FrameQueues.FrameQueue.PeekReadable | demos/FPL_FFMpeg/fpl_ffmpeg.cpp:582-596 | refused iff no unshown frame is left or the queue is stopped; otherwise the slot holds the oldest unshown frame |
| FrameQueues.FrameQueue.WriteSlot | demos/FPL_FFMpeg/fpl_ffmpeg.cpp:1839-1842 | the decoder's store into the write slot leaves every committed frame untouched |
| FrameQueues.FrameQueue.NextWritable | demos/FPL_FFMpeg/fpl_ffmpeg.cpp:598-605 | the written frame joins the tail, the write index advances modulo the capacity and the count rises by one, keeping count within capacity |
| FrameQueues.FrameQueue.NextReadable | demos/FPL_FFMpeg/fpl_ffmpeg.cpp:607-620 | with keep-last and nothing shown it only marks the head as shown; otherwise the head leaves, the read index advances modulo the capacity and the count falls by one |
| Decisions.GetMasterSyncType | demos/FPL_FFMpeg/fpl_ffmpeg.cpp:1772-1788 | video master iff requested with a video stream; audio master iff requested with audio, or video requested without video; external clock iff requested, or audio requested without audio |
| Decisions.MasterHasStream | demos/FPL_FFMpeg/fpl_ffmpeg.cpp:1772-1788 | with at least one stream present, the master chosen is never a clock without its stream |
| Decisions.MasterIsStable | demos/FPL_FFMpeg/fpl_ffmpeg.cpp:1772-1788 | with at least one stream present, applying the fallback to its own result changes nothing |
| Decisions.MapAudioFormatType | demos/FPL_FFMpeg/fpl_ffmpeg.cpp:1082-1098 | none exactly for None, S24 and S64, the device formats the switch does not list; never a planar format |
| Decisions.MapAVSampleFormat | demos/FPL_FFMpeg/fpl_ffmpeg.cpp:1100-1123 | no device format exactly for the "none" format; never 24-bit samples |
| Decisions.DeviceFormatRoundTrip | demos/FPL_FFMpeg/fpl_ffmpeg.cpp:1082-1123 | a supported device format survives the mapping to the decoder library and back |
| Decisions.SampleFormatRoundTrip | demos/FPL_FFMpeg/fpl_ffmpeg.cpp:1082-1123 | a decoder format other than 64-bit integers maps back to its interleaved counterpart of the same sample type |
| Decisions.IsPlanarSampleFormat | demos/FPL_FFMpeg/fpl_ffmpeg.cpp:1125-1137 | a planar format is never None and always has a device format |
| Decisions.PlanarIffRoundTripChanges | demos/FPL_FFMpeg/fpl_ffmpeg.cpp:1082-1137 | except for interleaved 64-bit samples, a format is planar iff the trip to the device format and back turns it into another format |
| Decisions.PlanarPairs | demos/FPL_FFMpeg/fpl_ffmpeg.cpp:1100-1137 | two distinct formats with the same device format are a planar and an interleaved one |
| AudioSync.Clip | demos/FPL_FFMpeg/fpl_ffmpeg.cpp:2119 | the clamped value lies in the range, equals the input when it is already inside, and is otherwise a bound |
| AudioSync.CorrectedSampleCount | demos/FPL_FFMpeg/fpl_ffmpeg.cpp:2116-2119 | the corrected count lies within 90% and 110% of the count whenever the 32-bit products do not overflow |
| AudioSync.BoundsWithoutWrap | demos/FPL_FFMpeg/fpl_ffmpeg.cpp:2117-2118 | below overflow the 32-bit bounds are the exact 90% and 110% values |
| AudioSync.CorrectionExactWithinBounds | demos/FPL_FFMpeg/fpl_ffmpeg.cpp:2116-2119 | a correction within ten percent is applied exactly; a positive one never shortens and a negative one never lengthens the count |
| AudioSync.AudioDiffAverage.constructor | demos/FPL_FFMpeg/fpl_ffmpeg.cpp:3291-3293 | the average starts with no measurements and a zero sum |
| AudioSync.AudioDiffAverage.SyncronizeAudio | demos/FPL_FFMpeg/fpl_ffmpeg.cpp:2103-2129 | the count is unchanged with audio master, with an unknown or too large difference (which resets the average), or while fewer than 20 measurements exist; otherwise it is corrected only when the average reaches the threshold; the result stays within ten percent below overflow |
| Reader.SeekWindowFor | demos/FPL_FFMpeg/fpl_ffmpeg.cpp:2473-2482 | a forward seek's window starts past its starting position, a backward one ends before it, a zero move is unbounded; the backward flag is set iff the move is backward or it was set already; other flags are kept |
| Reader.WindowContainsTarget | demos/FPL_FFMpeg/fpl_ffmpeg.cpp:2474-2475 | for 64-bit targets the window contains the target iff the move is not exactly one unit |
| Reader.RequestFlags | demos/FPL_FFMpeg/fpl_ffmpeg.cpp:2394-2397 | a request always allows any position, never seeks backward, and seeks by bytes iff the demuxer does |
| Reader.BackwardIffNegative | demos/FPL_FFMpeg/fpl_ffmpeg.cpp:2480-2482 | for the flags the latch records (`RequestFlags`, lines 2394-2397), the backward flag the seek adds is set iff the move is backward |
| Reader.EndOfStreamAction | demos/FPL_FFMpeg/fpl_ffmpeg.cpp:2536-2549 | reading goes on iff paused or a present stream is not drained; otherwise restart iff loops remain (using one up unless infinite), else exit |
| Reader.LoopCountRestarts | demos/FPL_FFMpeg/fpl_ffmpeg.cpp:2539-2542 | a loop count of n restarts the media exactly n times before the reader exits |
| Reader.InfiniteLoopNeverExits | demos/FPL_FFMpeg/fpl_ffmpeg.cpp:2539-2542 | with loop -1 the reader never exits and the count stays -1 |
| Reader.Player.constructor | demos/FPL_FFMpeg/fpl_ffmpeg.cpp:1753 | one loop when looping is configured, none otherwise; no seek pending |
| Reader.Player.SeekStream | demos/FPL_FFMpeg/fpl_ffmpeg.cpp:2390-2401 | a request is latched with the seek-any flag (plus byte seeking when configured) only when none is pending; a second request changes nothing |
| Reader.Player.CheckEndOfStream | demos/FPL_FFMpeg/fpl_ffmpeg.cpp:2536-2549 | the reader exits iff the decision says so; a restart stores the decremented loop count and, unless a seek is already pending, requests a seek to the start time (0 when unknown) with the recorded flags; otherwise the seek request is untouched; pause and end-of-file flags never change |
| Reader.Player.ProcessSeek | demos/FPL_FFMpeg/fpl_ffmpeg.cpp:2472-2515 | the demuxer gets the seek window; on success every present queue is emptied and, when a node is available for it, restarted in a new epoch holding just the flush sentinel; the request and the reader's end flag are cleared; the player is not paused afterwards, and a paused player is set to step one frame |
| Decoding.Decoder.constructor | demos/FPL_FFMpeg/fpl_ffmpeg.cpp:711-716 | a new decoder has packet serial -1, which no queue epoch equals (a valid queue's serial is never negative), and nothing held back |
| Decoding.Decoder.FetchPacket | demos/FPL_FFMpeg/fpl_ffmpeg.cpp:1916-1930 | a held-back packet is reused iff its epoch is still current; otherwise the first current-epoch packet is returned after discarding the older ones, and nothing is returned iff the queue was empty; what is returned is always current |
| Decoding.PopCurrentPacket | demos/FPL_FFMpeg/fpl_ffmpeg.cpp:1921-1930 | pops until a packet of the current epoch: fails iff the queue is empty, otherwise returns the first current packet and leaves what followed it |
| Decoding.DiscardedPrecedeFlush | demos/FPL_FFMpeg/fpl_ffmpeg.cpp:1916-1930 | every discarded packet is of an older epoch and has a flush sentinel after it, and none remains after the packet fetched |
| Decoding.Decoder.SubmitPacket | demos/FPL_FFMpeg/fpl_ffmpeg.cpp:1932-1946 | a flush sentinel resets the finished epoch to 0; another packet is held back iff the codec refuses it |
| Decoding.Decoder.ReachEndOfStream | demos/FPL_FFMpeg/fpl_ffmpeg.cpp:1903-1906 | at the codec's end of stream the finished epoch is the epoch of the last packet |
| AudioCallback.DrainPlaysInOrder | demos/FPL_FFMpeg/fpl_ffmpeg.cpp:2247-2348 | the callback's output is a prefix of: the staged audio, then the audio of current-epoch frames in queue order, then silence |
| AudioCallback.DrainLength | demos/FPL_FFMpeg/fpl_ffmpeg.cpp:2247-2348 | the callback never writes more than requested, and writes all of it unless a current frame converts to nothing |
| AudioCallback.DrainUsesAvailable | demos/FPL_FFMpeg/fpl_ffmpeg.cpp:2247-2348 | the callback moves past no more frames than are readable; a request of zero changes nothing |
| AudioCallback.AudioStaging.constructor | demos/FPL_FFMpeg/fpl_ffmpeg.cpp:3309-3313 | the conversion buffer holds the given number of frames, and nothing is staged |
| AudioCallback.AudioStaging.WriteSilenceSamples | demos/FPL_FFMpeg/fpl_ffmpeg.cpp:2211-2217 | the staged audio becomes exactly the requested number of silent frames |
| AudioCallback.AudioStaging.StageConverted | demos/FPL_FFMpeg/fpl_ffmpeg.cpp:2324-2325 | the staged audio becomes exactly the converted samples |
| AudioCallback.AudioStaging.DeliverStaged | demos/FPL_FFMpeg/fpl_ffmpeg.cpp:2254-2272 | the first staged frames are appended to the output after what was written, and are no longer staged |
| AudioCallback.AudioStaging.DeliverPhase | demos/FPL_FFMpeg/fpl_ffmpeg.cpp:2249-2272 | when paused, silence is staged; then as much staged audio as fits is delivered, which is the staged-audio step of the reference definition |
| AudioCallback.AudioStaging.FetchPhase | demos/FPL_FFMpeg/fpl_ffmpeg.cpp:2280-2347 | converts the frame taken last round (stopping when it yields nothing), or skips a stale frame, takes a current one, or stages silence; this is the frame step of the reference definition |
| AudioCallback.AudioStaging.Round | demos/FPL_FFMpeg/fpl_ffmpeg.cpp:2248-2347 | one round of the loop keeps the written output plus the reference definition of the rest equal to the whole callback's outcome, and makes progress |
| AudioCallback.AudioStaging.AudioReadCallback | demos/FPL_FFMpeg/fpl_ffmpeg.cpp:2219-2361 | the output past the frames written is never touched; without a valid stream nothing happens; otherwise the frames written, the output, the frames moved past and the staged remainder are exactly the reference definition's (silence when paused) |

## Left out

- Threads, mutexes, signals and the wait loops of the reader and decoder threads. Every queue operation is one sequential step.
- Every call into the FFmpeg libraries: reading, seeking, decoding, resampling and scaling. The demuxer's and the codec's answers are parameters (`seekOk`, `codecAccepts`), and the resampler's output is the `samples` of an `AudioFrame`.
- `av_mallocz` failure in `PushFlushPacket` and `PushNullPacket` is the `nodeAvailable` parameter (in `ProcessSeek`, one per queue: `audioNode`, `videoNode`). `sizeof(PacketList)` is the `nodeSize` parameter of the queue.
- The unsigned 64-bit `size`/`duration` and the 32-bit `packetCount`/`serial` of the packet queue are unbounded integers; wrap-around is not modelled.
- `StartPacketQueue` is not modelled. Its only statement sits inside an `assert`, so it vanishes from builds with `NDEBUG`.
- Memory management (`av_packet_unref`, `av_freep`, `FreeFrameData`) and the allocation statistics. `FlushPacketQueue` returns the number of nodes and payloads it would release.
- `InitFrameQueue` failing to allocate an `AVFrame` for a slot is not modelled. The frame queue's `stopped` flag is a parameter of the peek methods.
- Clocks, frame timing, video refresh, pause toggling, `StepToNextFrame` and the external-clock reset after a seek use doubles and wall-clock time, and are not modelled.
- The reader's packet routing and its queue-size limit are not modelled.
- The decoder's receive loop, its `isEOF`/stop flags and `next_pts` are not modelled.
- AudioDiffAverage.SyncronizeAudio: the measured difference and the averaging coefficients are exact reals, not doubles. The correction `(int)(diff * sampleRate)` is an input, so the real-to-integer truncation is not modelled.
- AudioSync.CorrectedSampleCount: the ten-percent bound is stated only where `sampleCount * 110` fits in 32 bits. Above that, the source's unsigned products wrap and the bounds are meaningless; the model computes that wrap but states nothing about it.
- Reader.SeekWindowFor: positions are unbounded integers. `target - rel ± 2` overflowing 64 bits is not modelled.
- AudioCallback.AudioStaging.AudioReadCallback:
  - One element of the arrays is one audio frame of the device; byte strides are not modelled.
  - The readable frames are a sequence, not the frame queue object. Each skip or conversion is one `NextReadable`, and the result `consumed` counts them.
  - The audio clock update after conversion and at the end of the callback is not modelled.
  - The requirement that a converted frame fits in the staging buffer mirrors the source's own assertion.
  - The model also requires the requested frame count to fit in the staging buffer (one second of audio). The source never checks this: on the paused and silence paths `WriteSilenceSamples` clears that many frames unchecked.
- Reader.Player.ProcessSeek: the unpause of `StepToNextFrame` is modelled as `isPaused` cleared and `step` set. The clock updates of `StreamTogglePause` and the external clock reset after a successful seek are not modelled. Neither are the decoders' `isEOF` reset and resume signal.
- The main loop, event handling, OpenGL rendering, fonts and media loading are outside this model.

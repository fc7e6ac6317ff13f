# Verified models of the GPS transform and the audio HAL protocols

This project models the algorithms and protocols of the vendor modules that carry the most state,
and proves what they are for. Every file is a Dafny module of its own; `dafny verify dfyconfig.toml`
checks all of them. Code that updates fields or arrays is written as classes and methods that are
proved against specification functions; what the code promises is then proved about those functions,
for all inputs, all histories or all reachable states.

- **The in-place transform of `fft.c`** (`Fft`, `Stages`, `BitReversal`, `Dft`, `ComplexNumbers`,
  `Arithmetic`). The array loops, with the reversed-carry counter and the twiddle recurrence, compute
  the quadratic sum of the discrete Fourier transform over exact complex numbers, for every power of
  two; transforming there and back gives nn times the input.
- **The AT command queue** (`AtCommandQueue`, `AtCommandThreads`). A drain sends the newest command of
  every pushed slot in order of last push exactly when the priorities are in order, which 255 pushes
  between drains cannot break and 256 can. In every interleaving no wakeup is lost.
- **The compressed-offload worker** (`OffloadStream`, `OffloadProtocol`, `OffloadRuns`, `OffloadOutput`). The critical
  sections as methods, and all interleavings of them as a transition system: the driver handle never changes under
  the worker, commands are served first in, first out, and the playback state and gapless metadata
  follow their rules.
- **The Bluetooth duplicate writer** (`BtScoCard`). The condition and semaphore handshake and the
  uplink and downlink bits, failed opens included: at most one owner of the card as long as the writer
  does not serve a refused request again.
- **Stream buffers**: the capture period buffer (`InputReader`) and the resampler that empties it
  (`ResamplerClient`), the ack-window writer (`MuxPcm`), the
  circular dump cache (`DumpCache`), the in-place channel converters (`PcmMixer`).
- **Text and bit fields**: NMEA tokenising (`NmeaTokenizer`), gain profiles and bit-field unpacking
  (`AudioPga`, `GainBits`).

Where a promise does not hold of the code, the code is kept as it is, a lemma gives an input or a run that
shows it, and another says exactly when it does hold:

- Priorities are cut to eight bits, so the 256th push between two drains wraps to priority 0. For a slot
  other than 0 the drain then sends the empty command of slot 0 (`WrapSendsEmptyCommand`). A drain is right
  exactly if the record is in order (`DrainExact`), and a push keeps it so exactly if the largest priority
  is below 255 or slot 0 is alone (`PushKeepsOrder`).
- A write that overlaps the wait of a standby call clears the metadata flag and sets the started flag that
  standby has just reset. The next write can then open a driver that is not told the gapless values and is
  never started (`OverlapIsReachable`). A metadata change takes no lock, so a write can also fall between its
  two stores, or they inside a write. All writes of a run are announced exactly if none is made with the
  metadata flag clear on a driver to be opened or on values changed since, nor sees them change after its test
  of the flag (`RunAnnounces`).
- The worker's initialisation takes no lock either: after a first write it clears the started flag of a running
  driver (`LateWorkerIsReachable`). All along a run the flag tells whether the open driver runs, exactly if
  that does not happen and no write opens the driver with the flag set (`RunStarts`).
- The worker signals the one condition variable once. With two stopping callers asleep, a later signal
  can reach the second of them instead of the worker, which then sleeps on a nonempty list
  (`LostWakeupIsReachable`). A step keeps wakeups exactly if it is not the end of a driver call with two
  callers asleep (`StepKeepsWake`), and a run keeps them exactly if no such step occurs in it
  (`NoLostWakeup`).
- The duplicate writer can pass its check again before a refused request has been withdrawn, which leaves an
  extra post in the semaphore (`ExtraPost`), and from there the card gets two owners (`TwoOwners`). The
  handshake holds all along a run exactly if that step does not occur in it (`RunKeepsInv`).
- A write that fills the window, followed by a timeout, leaves a full window (`FirstTimeoutSticks`), and no
  later write on that handle reads an acknowledgement or sends a byte (`FullWindowIsStuck`). That happens
  exactly if the writes fill more windows than the acknowledgements serve, and everything that fits the first
  window not served comes after a negative one (`SticksExactly`).
- A write that ends exactly at the end of the dump cache does not set `more_one`, and a save right after
  it emits nothing (`ExactFillSavesNothing`); a save is right exactly if the cache has not been filled or
  `more_one` is set (`SaveExact`). A write of at least twice the cache length keeps its end exactly below
  three lengths (`LongWriteExact`).
- `audio_pga_set` masks a field but does not compare it with the maximum, so a control can be set above it or
  below zero (`OutOfRange`). The fields of all words are in range exactly if the maximum has no zero among
  its bits (`AllFieldsInRange`).
- A table of gain profiles records the doubled size before its reallocation. If that fails, a later new entry
  of the table is written outside the storage, whatever elements come in between (`LaterIsOutside`). A
  description writes every entry inside exactly if none is new for a table whose growth has failed before
  (`DescriptionInside`).

`FFT` gives its exponent the sign of isign; that is the convention the models follow.

## Model

| member | source | states |
|---|---|---|
| Fft.FFT | gps/gnsspc/fft.c:59-109 | For every nn a power of two and every input, slot k ends up as the sum over j of x[j] times the isign-directed nn-th root of unity to the power jk; slot 0 of the array is not touched. |
| Fft.ThereAndBack | gps/gnsspc/fft.c:50-57 | Running the transform twice on one array, with opposite isign, leaves nn times the original data in it, so the caller's division by nn restores it. |
| Fft.RoundTrip | gps/gnsspc/fft.c:50-57 | The transforms of a sequence with opposite roots undo each other up to the factor nn. |
| Fft.BitReverse | gps/gnsspc/fft.c:65-81 | The swapping pass leaves in every slot the sample whose index is the bit reversal of that slot; the swaps made are one for each slot that comes before its reversal. |
| Fft.StepCounter | gps/gnsspc/fft.c:74-80 | The inner while loop ends and steps the reversed-carry counter; only the all-ones index overflows it. |
| Fft.NextReversal | gps/gnsspc/fft.c:65-80 | The counter is the bit reversal of the loop index at every iteration. |
| Fft.SwapSlots | gps/gnsspc/fft.c:71-72 | Two complex slots are exchanged and all others kept. |
| BitReversal.RevBits | gps/gnsspc/fft.c:67-81 | Bit i of the target index is bit p-1-i of the source index. |
| BitReversal.RevInvolution | gps/gnsspc/fft.c:67-81 | Reversing an index twice gives it back. |
| BitReversal.CounterIsReversal | gps/gnsspc/fft.c:74-80 | One counter step takes the reversal of a to the reversal of a + 1. |
| BitReversal.PermutedInvolution | gps/gnsspc/fft.c:67-81 | Applying the whole pass twice is the identity. |
| Fft.CombinePair | gps/gnsspc/fft.c:97-102 | A pair becomes the sum and the difference of the first slot and the twiddled second slot. |
| Fft.CombinePairs | gps/gnsspc/fft.c:94-103 | The innermost loop combines exactly the slots at offset m of every block, once each. |
| Fft.ButterflyStage | gps/gnsspc/fft.c:85-106 | One pass with the recurrence for (wr, wi) applies the butterfly with the exact powers of the stage's root. |
| Fft.TwiddleStep | gps/gnsspc/fft.c:104-105 | The recurrence with wpr = cos - 1 and wpi = sin multiplies the twiddle by the root. |
| Fft.Circle.RootsFormTower | gps/gnsspc/fft.c:86-89 | The computed roots square to those of the stage before, down to -1 at the first stage. |
| Stages.StagesComputeTransform | gps/gnsspc/fft.c:82-108 | All stages after the permutation compute the transform. |
| Stages.LastStage | gps/gnsspc/fft.c:83-107 | One stage turns the transforms of the even and odd samples into the transform of all. |
| Dft.EvalSplit | gps/gnsspc/fft.c:82-108 | The Danielson-Lanczos identity for the polynomial of the samples. |
| Dft.TransformSplit | gps/gnsspc/fft.c:97-102 | The recursion step of the transform at both halves of the slots. |
| Dft.TransformInverse | gps/gnsspc/fft.c:53-57 | Transforms with inverse roots undo each other up to the factor 2^p. |
| AtCommandQueue.AtCommands.ProcessPriority | modules/audio/normal/at_commands_generic.c:71-83 | One more than the largest priority, in the eight bits of the result type. |
| AtCommandQueue.AtCommands.PushVoiceCommand | modules/audio/normal/at_commands_generic.c:98-111 | A push overwrites its slot, marks it and gives it the next priority, and changes no other slot. |
| AtCommandQueue.AtCommands.PushRouteCommand | modules/audio/normal/at_commands_generic.c:113-126 | The same, and the routing device is recorded. |
| AtCommandQueue.AtCommands.DoCmdDual | modules/audio/normal/at_commands_generic.c:25-70 | A drain leaves a zeroed record and sends the copied commands in reverse order of repeated maximum. |
| AtCommandQueue.OrderByPriority | modules/audio/normal/at_commands_generic.c:45-57 | The selection loops compute the repeated take-the-largest-and-zero-it. |
| AtCommandQueue.SendReversed | modules/audio/normal/at_commands_generic.c:58-68 | The sending loop sends the selected slots backwards, each with the device for a route command. |
| AtCommandQueue.LatestSnoc | modules/audio/normal/at_commands_generic.c:98-111 | One more push deletes the older entry of its slot from the surviving log and goes to its end. |
| AtCommandQueue.SelectsInOrder | modules/audio/normal/at_commands_generic.c:45-68 | Selecting maxima and reversing gives the push order if and only if the priorities rise along it and no slot but 0 has priority 0. |
| AtCommandQueue.DrainExact | modules/audio/normal/at_commands_generic.c:25-83 | For every push log, a drain sends the newest command of each pushed slot in order of last push if and only if the record is in order. |
| AtCommandQueue.PushKeepsOrder | modules/audio/normal/at_commands_generic.c:71-83 | A push keeps the record in order if and only if the largest priority is below 255 or slot 0 is alone. |
| AtCommandQueue.PriorityIsPosition | modules/audio/normal/at_commands_generic.c:71-106 | Within 255 pushes a slot's priority is the log position of its last push. |
| AtCommandQueue.DrainSendsLatest | modules/audio/normal/at_commands_generic.c:25-126 | For any log of at most 255 pushes a drain sends exactly the log with superseded entries deleted. |
| AtCommandQueue.WrapSendsEmptyCommand | modules/audio/normal/at_commands_generic.c:71-83 | 256 pushes of one command to a slot other than 0 make the drain send the empty command of slot 0. |
| AtCommandThreads.NextKeepsInv | modules/audio/normal/at_commands_generic.c:36-42 | Every step of pushers and drainer keeps the record equal to the pending log, the sent commands equal to the drains of the copied batches, and one semaphore unit per push. |
| AtCommandThreads.NoLostWakeup | modules/audio/normal/audio_hw.c:6141-6146 | In every reachable state with a command pending the semaphore is positive, a pusher is about to post, or the drainer is awake. |
| AtCommandThreads.SentIsLatest | modules/audio/normal/at_commands_generic.c:92-111 | In every run with at most 255 pushes between copies the modem sees the newest command of each slot, batch by batch. |
| AtCommandThreads.QuiescentMeansDelivered | modules/audio/normal/audio_hw.c:6141-6146 | With the semaphore at 0, all posts made and the drainer waiting, nothing is pending and the semaphore was taken once per push. |
| AtCommandThreads.RunMovesDrainer | modules/audio/normal/audio_hw.c:6141-6146 | At every step of every run the drainer stays or goes on: woken by one unit, copying, sending its copies one by one in order, and waiting again when none is left. |
| AtCommandThreads.CanSettle | modules/audio/normal/audio_hw.c:6141-6146 | Every run can be continued, without another push, until all is delivered and the drainer waits. |
| AtCommandThreads.LatestAreSurvivors | modules/audio/normal/at_commands_generic.c:98-126 | A push is delivered once unless a later push to its slot comes before the drain. |
| OffloadOutput.OutStream.StopCompressOutput | modules/audio/whale/audio_offload.c:177-182 | Stopping keeps the stream valid and its writes announced, makes the next write announce the values again, and stops an open driver once without giving up the handle. |
| OffloadOutput.OutStream.CloseCompressOutput | modules/audio/whale/audio_offload.c:80-93 | The stream stays valid, is in standby without a handle, and the driver has been closed once if it was open. |
| OffloadOutput.OutStream.Standby | modules/audio/whale/audio_offload.c:75-98 | After a standby that does not have to wait, a write that opens the driver is announced. |
| OffloadOutput.OutStream.OutWrite | modules/audio/whale/audio_hw.c:832-844 | All writes stay announced, and the stream valid, if and only if the flag is set or the driver is open and knows the values; nothing changes if the driver does not open. |
| OffloadOutput.OutStream.Pause | modules/audio/whale/audio_offload.c:475-483 | PAUSED is entered only from PLAYING on an open driver, by one driver call, and the stream stays valid. |
| OffloadOutput.OutStream.Resume | modules/audio/whale/audio_offload.c:511-519 | Only a paused stream with an open driver plays again, by one driver call, and the stream stays valid. |
| OffloadProtocol.StepKeepsHandle | modules/audio/whale/audio_offload.c:289-325 | Every critical section keeps: worker in a driver call if and only if the blocked flag is set, on the current non-null handle; standby if and only if the handle is null. |
| OffloadProtocol.RunKeepsHandle | modules/audio/whale/audio_offload.c:75-98 | So in every interleaving of writes, flushes, standbys, destroys and the worker; no step that starts during a driver call opens or closes a handle. |
| OffloadProtocol.StepKeepsLog | modules/audio/whale/audio_offload.c:273-329 | The log of sends is, in order, the commands retired, in progress, discarded and pending; the callback events are in the order of the finished ones. |
| OffloadProtocol.RunKeepsLog | modules/audio/whale/audio_offload.c:229-242 | The same in every run: first in, first out, each command with exactly one fate. |
| OffloadProtocol.RunKeepsPlay | modules/audio/whale/audio_offload.c:475-518 | In every run STOPED means not started, PAUSED is entered only from PLAYING, PLAYING only by a write or a resume, and STOPED only by a stopping call or the start of the worker. |
| OffloadProtocol.RunStarts | modules/audio/whale/audio_offload.c:429-449 | All along a run the started flag tells whether the open driver has been started and not been stopped, if and only if no write opens the driver with the flag set and the worker does not clear it after a first write. |
| OffloadProtocol.LateWorkerIsReachable | modules/audio/whale/audio_offload.c:251-253 | A run in which the worker's initialisation clears the flag of a running driver. |
| OffloadProtocol.StepAnnounces | modules/audio/whale/audio_offload.c:414-448 | A step keeps every write preceded by the current gapless values on its own handle if and only if it is not a write with the flag clear that opens the driver or comes after a change, nor one that the values change in after its flag test. |
| OffloadProtocol.RunAnnounces | modules/audio/whale/audio_offload.c:177-222 | In every interleaving, with the two unlocked stores of every metadata change anywhere between and inside the sections, all writes since the start are so announced if and only if no such write has been made. |
| OffloadProtocol.RunKeepsMetadata | modules/audio/whale/audio_offload.c:414-448 | In particular if no write overlaps the wait of a standby call or a metadata change. |
| OffloadProtocol.ChangeDuringWrite | modules/audio/whale/audio_offload.c:221-222 | Exactly which stores inside a write leave the values changed with the flag clear, so that the next write goes out without them too. |
| OffloadProtocol.OverlapIsReachable | modules/audio/whale/audio_offload.c:75-98 | A run in which a write overlaps the wait of a standby: the write after it is not announced, and the driver that it opens is never started. |
| OffloadProtocol.StepKeepsWake | modules/audio/whale/audio_offload.c:273-276 | No step loses a wakeup, the end of a driver call if and only if at most one caller would be left asleep by its one signal. |
| OffloadProtocol.NoLostWakeup | modules/audio/whale/audio_offload.c:322-325 | All along a run the worker sleeps unsignaled only on an empty list and a stopping caller only while the worker is in a call, if and only if no end of a driver call finds two callers asleep. |
| OffloadProtocol.LostWakeupIsReachable | modules/audio/whale/audio_offload.c:322-325 | With two flushes asleep a run ends with a command in the list and the worker asleep. |
| OffloadRuns.RunSends | modules/audio/whale/audio_offload.c:229-242 | In every run the commands sent are as many as their steps: a wait for every short write, a drain or partial drain for every call, an exit for every destroy that has got past its wait. |
| OffloadRuns.RunServes | modules/audio/whale/audio_offload.c:278-296 | The worker takes the oldest command: exit ends it, in standby the command is dropped, and otherwise it is called on the current handle. |
| OffloadRuns.RunReports | modules/audio/whale/audio_offload.c:297-325 | In every run there are as many write-ready events as waits for buffer space that ended with a callback set, and as many drain-ready events as drains and partial drains that did. |
| OffloadRuns.RunCallback | modules/audio/whale/audio_offload.c:453-465 | Whether a callback is set is what the last call that set or cleared it said. |
| OffloadRuns.NoMoreEventsThanCalls | modules/audio/whale/audio_offload.c:297-325 | No more write-ready events than short writes, and no drain-ready event in a run in which no drain has been sent. |
| OffloadRuns.RunMovesHandle | modules/audio/whale/audio_offload.c:75-98 | At every step of every run an open handle becomes null if and only if the step ends a standby, and a null one open if and only if it is a write that opens the driver, on a new handle; a stop begins with one stop of an open driver, and a flush or destroy leaves handle and standby alone and makes no other call. |
| OffloadRuns.RunPairsHandles | modules/audio/whale/audio_offload.c:75-98 | In every run each handle is opened once and closed once before the next is opened; only the last can be open. |
| OffloadRuns.RunWaits | modules/audio/whale/audio_offload.c:180-186 | A stopping call waits if and only if the worker is in a driver call, leaves its wait only when it is not, and goes on as what it is. |
| OffloadRuns.CanServe | modules/audio/whale/audio_offload.c:262-326 | From every state of a run in which the worker runs and has not slept through a command, its own steps lead to an empty list with no call under way. |
| BtScoCard.ThreadManager.RequestStart | modules/audio/normal/audio_hw.c:3398-3406 | A request keeps the handshake; it has to wait if and only if the zero-writer is not as requested, and then the semaphore is 0 and the writer awake. |
| BtScoCard.ThreadManager.WaitReturns | modules/audio/normal/audio_hw.c:3408-3410 | When the wait is over the zero-writer holds the card if and only if that was asked for and the open did not fail, and no post is left. |
| BtScoCard.ThreadManager.CheckStart | modules/audio/normal/audio_hw.c:3411-3417 | The request returns 0 if and only if the zero-writer is as requested; in either case the count then says whether it holds the card. |
| BtScoCard.ThreadManager.WriterGoes | modules/audio/normal/audio_hw.c:3335-3377 | A step of the zero-writer, with any result of its open, keeps the handshake if and only if it does not serve a refused request again; it opens and closes only as the flag says. |
| BtScoCard.StepKeepsInv | modules/audio/normal/audio_hw.c:3321-3420 | Every step of writer and callers, failed opens included, keeps one post per answered request, nobody asleep through one, and the meaning of the uplink and downlink bits, if and only if it is not the writer going again. |
| BtScoCard.RunKeepsInv | modules/audio/normal/audio_hw.c:3321-3420 | The invariant holds all along a run if and only if the writer never goes again in it. |
| BtScoCard.OneOwner | modules/audio/normal/audio_hw.c:2250-2263 | In every such run the zero-writer and the output stream never both hold the card; the duplicate is on only without a downlink and, unless a request to turn it off is being made, only with an uplink. |
| BtScoCard.CaptureIsDriven | modules/audio/normal/audio_hw.c:2528-2551 | In every such run no capture stream is active when the playback stream is opened or closed; between calls an active one has its uplink and either the playback stream or the zero-writer, and the zero-writer holds the card if and only if a capture stream is active and there is no playback. |
| BtScoCard.CallsAchieve | modules/audio/normal/audio_hw.c:3589-3597 | Every call that returns in such a run has done what it is for: capture is active after a start if and only if there is a downlink or the zero-writer has opened, in standby after a stop; playback is open with its downlink bit, or closed without it, and capture stopped. |
| BtScoCard.RequestReturns | modules/audio/normal/audio_hw.c:3394-3420 | When a request's wait is over the zero-writer holds the card if and only if it was asked to and its open did not fail; outside of waits the semaphore is 0 with one post per open, close and failed open. |
| BtScoCard.WaitEnds | modules/audio/normal/audio_hw.c:3408-3410 | A waiting caller finds a post, or the writer can go and each of its steps, whatever its open results in, brings the post nearer. |
| BtScoCard.ExtraPost | modules/audio/normal/audio_hw.c:3342-3356 | A run in which the writer opens and fails a second time before the caller looks leaves the semaphore at 1 between requests. |
| BtScoCard.TwoOwners | modules/audio/normal/audio_hw.c:3394-3420 | From there a run gives the card two owners. |
| InputReader.InputStream.GetNextBuffer | modules/audio/normal/audio_hw.c:4076-4168 | The next at most frame_count frames of the device, from the period buffer that is refilled when empty; no buffer if the device is closed or its read fails. |
| InputReader.InputStream.ReleaseBuffer | modules/audio/normal/audio_hw.c:4170-4181 | The frames handed out leave the buffer. |
| InputReader.InputStream.ReadFrames | modules/audio/normal/audio_hw.c:4185-4220 | The loop without a resampler ends; it returns the frames asked for or the status of the first failing read, its output is the next frames of the device, and the rest of the caller's buffer is kept. |
| InputReader.CallUses | modules/audio/normal/audio_hw.c:4185-4220 | Whether a request succeeds or fails, the frames it copied are exactly those that left the buffer. |
| InputReader.RunConserves | modules/audio/normal/audio_hw.c:4076-4220 | In every run of requests, standbys and starts, all frames the device delivered were handed out, lost by a failed request or a reset, or are still buffered, once and in order. |
| InputReader.CallExact | modules/audio/normal/audio_hw.c:4102-4166 | A request succeeds if and only if every period that covers it can be read; else it returns the status of the first that cannot, having copied every frame before it. |
| InputReader.FirstFramesExact | modules/audio/normal/audio_hw.c:4102-4220 | Requests of any sizes with total N are all served if and only if the first N/P periods, rounded up, can be read; then the outputs are the first N frames of those periods, read once each, and the remainder is kept. |
| InputReader.StaleExactly | modules/audio/normal/audio_hw.c:4094-4100 | Left-over frames get the status of a failure if and only if a request comes while the device is closed, which `in_read` does not let happen. |
| ResamplerClient.GetKeepsPlace | modules/audio/normal/audio_hw.c:4102-4166 | The device is read only for a get that finds the buffer empty, the grant is what was wanted or all there is, and a get moves no frame: without a release the next one grants the same frames. |
| ResamplerClient.UsesConserve | modules/audio/normal/audio_hw.c:4076-4181 | For every pattern of gets and releases of at most what was granted, standbys, restarts and device failures, the frames that left the buffer were released or dropped by a reset, once and in order. |
| ResamplerClient.ReleasedInOrder | modules/audio/normal/audio_hw.c:4192-4196 | From a fresh stream without resets, the released frames are those of the good periods read so far but for the ones still buffered. |
| MuxPcm.CreditExact | modules/audio/normal/audio_mux_pcm.c:446-463 | A wait reads until a negative acknowledgement or until nothing is outstanding, and credits what the acknowledgements read have taken off, each counted if it fits what was outstanding then. |
| MuxPcm.SplitCredits | modules/audio/normal/audio_mux_pcm.c:446-463 | Acknowledgements of any sizes, the first k of which and no fewer add up to n, credit n, and exactly these k are read. |
| MuxPcm.Handle.WaitResponse | modules/audio/normal/audio_mux_pcm.c:441-467 | The credited bytes and the acknowledgements left unread, for every pattern of acknowledgements, over-acks and errors included; acknowledgements that add up to the bytes waited for succeed and are read exactly, however they are split. |
| MuxPcm.Handle.SendChunk | modules/audio/normal/audio_mux_pcm.c:498-524 | One round keeps bytes_written equal to accepted minus credited bytes and within one window. |
| MuxPcm.Handle.Write | modules/audio/normal/audio_mux_pcm.c:469-532 | What goes out is a prefix of the data of the returned length; the call fails if and only if its writes fill more windows than the acknowledgements serve, and fills its window for good if and only if moreover nothing that fits comes in time; a full window stays full and lets nothing out. |
| MuxPcm.FullWindowIsStuck | modules/audio/normal/audio_mux_pcm.c:499-521 | On a full window nothing is sent and no acknowledgement read. |
| MuxPcm.FailsExactly | modules/audio/normal/audio_mux_pcm.c:497-515 | A call fails if and only if its writes fill more windows than the acknowledgements serve, and its failing wait finds what they leave. |
| MuxPcm.ServedExactly | modules/audio/normal/audio_mux_pcm.c:446-463 | The windows served are as many as the acknowledgements bring down to nothing one after the other, whatever their sizes. |
| MuxPcm.BytesConserved | modules/audio/normal/audio_mux_pcm.c:497-515 | The bytes sent by a call and those in the window before are those in the window after and one window for each that was filled and served, and what a failing wait was worth. |
| MuxPcm.SticksExactly | modules/audio/normal/audio_mux_pcm.c:508-515 | A call leaves a full window if and only if its writes fill more windows than are served and every acknowledgement that fits the next one comes after a negative one. |
| MuxPcm.CreditsNothing | modules/audio/normal/audio_mux_pcm.c:446-463 | A wait credits nothing if and only if every acknowledgement that fits it comes after a negative one. |
| MuxPcm.FirstTimeoutSticks | modules/audio/normal/audio_mux_pcm.c:502-515 | One write of a window's length and no acknowledgement leave a full window. |
| MuxPcm.EverythingGoesOut | modules/audio/normal/audio_mux_pcm.c:497-531 | If every write takes something, however little, all data goes out and the window holds the total modulo its size if and only if the acknowledgements bring down as many windows as the total fills; acknowledgements of each window in any parts do. |
| DumpCache.OutDump.DumpToBuffer | modules/audio/normal/ext_control.c:991-1025 | A write goes into the cache from write_flag on, around the end. |
| DumpCache.OutDump.SaveCacheBuffer | modules/audio/normal/ext_control.c:959-985 | The bytes that a save emits and the length it records. |
| DumpCache.AfterHolds | modules/audio/normal/ext_control.c:1009-1022 | After any history of writes no longer than the cache, write_flag is its length modulo the cache length and the cache holds its end. |
| DumpCache.PositionOfByte | modules/audio/normal/ext_control.c:1009-1022 | Byte k of the history, if among the last, lies at k modulo the cache length. |
| DumpCache.SaveExact | modules/audio/normal/ext_control.c:972-982 | A save emits exactly the last bytes of the history if and only if the history is shorter than the cache or more_one is set. |
| DumpCache.MoreIffWrapped | modules/audio/normal/ext_control.c:1009-1010 | more_one is set if and only if some write ran past the end of the cache. |
| DumpCache.ExactFillSavesNothing | modules/audio/normal/ext_control.c:1017-1021 | One write that fills the cache exactly makes the save emit nothing. |
| DumpCache.LongWriteExact | modules/audio/normal/ext_control.c:1003-1008 | A write of at least twice the cache length leaves one window of it, from the remainder of its length behind one cache length on, which is its end only below three times. |
| NmeaTokenizer.Tokenizer.Init | gps/gnsspc/gps_pc_mode.c:179-222 | The tokens are the comma-separated fields of the body without '$', checksum and line end, the first 32 of them. |
| NmeaTokenizer.Tokenizer.Get | gps/gnsspc/gps_pc_mode.c:224-240 | After the sentence has been tokenised, the token with an index in range spells that field of it; any other is empty. |
| NmeaTokenizer.BodyOfSentence | gps/gnsspc/gps_pc_mode.c:186-198 | The body is found whether or not a sentence has the '$', the checksum and either line end, as long as those can be told from it. |
| NmeaTokenizer.FieldsOfJoin | gps/gnsspc/gps_pc_mode.c:200-219 | Splitting joined comma-free fields gives them back but for an empty last one. |
| NmeaTokenizer.FieldsCommaFree | gps/gnsspc/gps_pc_mode.c:200-219 | For every body no token contains a comma. |
| NmeaTokenizer.JoinOfFields | gps/gnsspc/gps_pc_mode.c:200-219 | For every body joining the fields gives it back up to one trailing comma. |
| NmeaTokenizer.PrintThenTokenize | gps/gnsspc/gps_pc_mode.c:179-222 | A printed sentence gives its fields back if and only if there are at most 32, none has a comma and the last is not empty. |
| NmeaTokenizer.SentenceThenTokenize | gps/gnsspc/gps_pc_mode.c:179-222 | The same for sentences without some of the optional parts. |
| GainBits.Fls | modules/audio/normal/audio_pga.c:73-100 | The halving steps compute the bit length of every 32-bit value. |
| GainBits.BitLengthExact | modules/audio/normal/audio_pga.c:73-100 | That length is exact: the value lies under the mask of that many bits and not under one less. |
| GainBits.OtherField | modules/audio/normal/audio_pga.c:493-495 | A value shifted into one field is invisible in every disjoint field, sign extension included. |
| AudioPga.Pga.ProfileCreate | modules/audio/normal/audio_pga.c:124-158 | A profile is added once per name, the table growing from 8 by doubling; a failed allocation adds nothing and leaves the storage, but has doubled the size. |
| AudioPga.Pga.ProfileAddItem | modules/audio/normal/audio_pga.c:172-205 | The same for the items of a profile, from 2. |
| AudioPga.Pga.AttributeCreate | modules/audio/normal/audio_pga.c:219-254 | The same for attributes. |
| AudioPga.StartKeepsSound | modules/audio/normal/audio_pga.c:256-342 | Every element, with or without failing allocations, keeps names and controls unique and every length and storage within its recorded size. |
| AudioPga.InsideExactly | modules/audio/normal/audio_pga.c:134-157 | From tables of which some have failed to grow, a description writes every entry inside allocated storage if and only if none is new for a table that failed before. |
| AudioPga.DescriptionInside | modules/audio/normal/audio_pga.c:256-342 | The same for a whole description from empty tables. |
| AudioPga.RoomExactly | modules/audio/normal/audio_pga.c:134-148 | From tables whose storage is what their sizes say, an element writes inside, and keeps them so if and only if it does not fail to make one grow. |
| AudioPga.LaterIsOutside | modules/audio/normal/audio_pga.c:134-157 | If an element fails to grow a table and a later one is new for it, with any elements in between, the description writes outside its tables. |
| AudioPga.AllocatedInside | modules/audio/normal/audio_pga.c:256-342 | A description whose allocations succeed writes every entry inside. |
| AudioPga.GrowthExact | modules/audio/normal/audio_pga.c:134-148 | In a description whose allocations succeed every table takes the least doubling of its initial size that holds its entries, and nothing for none. |
| AudioPga.ProfileIsFirstSection | modules/audio/normal/audio_pga.c:256-342 | For every description a profile holds the pga elements of its first declaration, each control once; later declarations of the name are ignored. |
| AudioPga.AttributeIsFirstDeclared | modules/audio/normal/audio_pga.c:309-342 | For every description a control has exactly the attribute of its first mixer element: the maximum and flag of the last attr element before the next mixer element, zero and false without one; later declarations of the control and their attr elements are ignored. |
| AudioPga.DeclaredIffNamed | modules/audio/normal/audio_pga.c:309-318 | There is such an attribute if and only if a mixer element names the control. |
| AudioPga.Pga.AudioPgaSet | modules/audio/normal/audio_pga.c:361-373 | The control is set to the field under the mask of the maximum's bits, or to the maximum minus it. |
| AudioPga.Pga.AudioPgaApply | modules/audio/normal/audio_pga.c:473-497 | Every item of the named profile is applied; an unknown name gives -1 and no change. |
| AudioPga.PackHits | modules/audio/normal/audio_pga.c:493-495 | With disjoint fields, unpacking a field of the packed word gives the value packed into it. |
| AudioPga.PackThenApply | modules/audio/normal/audio_pga.c:361-495 | Packing values up to the maxima into one word and applying it sets every control to its value, or to the maximum minus it if inverse. |
| AudioPga.DescriptionThenApply | modules/audio/normal/audio_pga.c:256-495 | From the description to the mixer: the word that packs values for a profile sets each of its controls to its value, or to the declared maximum minus it if the declaration says inverse. |
| AudioPga.AppliedKeeps | modules/audio/normal/audio_pga.c:493-495 | Controls outside the profile keep their values. |
| GainBits.AllFieldsInRange | modules/audio/normal/audio_pga.c:366-367 | The masked fields of all words stay within a maximum if and only if the maximum has no zero among its bits; otherwise the word of ones does not. |
| AudioPga.OutOfRange | modules/audio/normal/audio_pga.c:366-371 | With a maximum of 5 the word 7 sets a control to 7, or to -2 if it is inverse. |
| PcmMixer.Expand | modules/audio/whale/audio_hw.c:165-175 | The backward loop duplicates every original sample although source and target overlap. |
| PcmMixer.Mix | modules/audio/whale/audio_hw.c:155-163 | The forward loop replaces pairs by their averages, every one a 16-bit sample. |
| PcmMixer.MixUndoesExpand | modules/audio/whale/audio_hw.c:155-175 | Expanding and then mixing restores the samples. |
| PcmMixer.ExpandUndoesMix | modules/audio/whale/audio_hw.c:155-175 | The other way round is the identity if and only if the channels are equal. |
| PcmMixer.AverageIsBetween | modules/audio/whale/audio_hw.c:160 | An average lies between its samples, rounded toward zero. |

## Left out

- Fft.FFT: rounding of doubles and the accuracy of the library sine; arithmetic is exact, and the sine and pi are parameters with the identities of the real ones that `Circle.Valid` lists.
- Fft.ButterflyStage: the loops of `FFT` are methods of their own here; magnitude, SNR, windows and `DataSwap` of fft.c are not modelled.
- AtCommandQueue.AtCommands.PushVoiceCommand: the dirty word is the set of its bits; command texts are shorter than a slot, which the callers' format strings ensure and the code does not test; sending to the modem always returns.
- OffloadProtocol.RunKeepsHandle: driver calls return arbitrary results but do return; the modem PCM link is one flag; the two stores of the worker's initialisation, which takes no lock, are one step between sections; joining the worker thread is not modelled.
- OffloadOutput.OutStream.OutWrite: byte counts, stream_status, output masks and device selection.
- OffloadOutput.OutStream.Standby: the wait for a worker in a driver call, which only the transition system has.
- BtScoCard.OneOwner: one capture and one playback stream on the card, callers serialised by the device lock, and an open of the playback stream that succeeds (opens of the duplicate writer may fail); thread creation and exit.
- InputReader.InputStream.ReadFrames: its callers enter it with a resampler, whose conversion is not modelled; `ResamplerClient` models it as any pattern of gets and releases. The device is an arbitrary sequence of period reads, so the four capture sources are not told apart.
- MuxPcm.Handle.Write: the pipe's results are finite lists after which every call fails, so an endless stream of zero acknowledgements is not modelled; sending the START command is one result, and clearing the pipe after it is left out; counts of 2^31 bytes or more, which the source turns negative.
- DumpCache.OutDump.DumpToBuffer: writes longer than the cache but shorter than twice it, for which the source address lies past the end of the caller's buffer; null pointers and file errors.
- NmeaTokenizer.Tokenizer.Init: sentences are strings, tokens are index ranges; the numeric parsing of tokens.
- AudioPga.Pga.ProfileAddItem: an entry written outside the storage is kept all the same; controls the card lacks; the XML parser.
- AudioPga.Pga.AudioPgaApply: negative maxima and bit positions of 32 or more, for which the shifts of the source are undefined; profiles with an item that has no attribute, which the source dereferences.
- The modem call and VoIP commands of `vb_control_parameters.c`, routing and device tables, EQ and gain tables, register and boot tools: tables, and calls into the mixer and the drivers without an algorithm of their own.

# VBAN streaming core: a verified model

The repository is a VBAN (network audio) emitter and receptor. This project models the path an audio
sample takes through it and proves what the path promises:

* an emitter cuts its buffer into packets by halving, may spread them over timer ticks, and sends each
  packet several times under one 32-bit number (`Packets`, `Transmission`);
* a multistream receptor forwards packets by sender and stream name and drops silent clients
  (`Multistream`);
* a receptor skips duplicates (`Transmission`), resamples (`VariableResampler`, next to the fixed-ratio
  `FixedResampler` and the `CubicResampler`), and stores whole frames in a byte ring
  (`ReceiveBudget`, `FrameRing`, `RingBuffers`), which a second thread reads (`RingProtocol`);
* the audio callback takes frames from the ring with three frames of history (`FrameReader`, `Playback`);
* coefficient tables are shared by reference counting (`CoefficientTables`), a sliding median smooths a
  measurement (`MedianFilter`), and the receptor's description of itself is printed and parsed
  (`ReceptorInfo`).

The resamplers are classes with the source's fields, the loops of `process` and its buffer moves. Their
specification is a stream of frames fed since the last reset and a position on it: no buffer, no wrap
point, no zero counter. `Schedule` holds what the three have in common, a greedy machine that feeds
while input is lacking and makes outputs while they are wanted; `SlidingWindow` holds the buffer
operations. Files named `...Runs` state what whole runs amount to. `Division`, `Lists` and `Options` are helpers.

Arithmetic on samples, phases and steps is exact (`real`), on integer phases and counters it is `int`;
8-, 16-, 32- and 64-bit wrap-around is written out where a counter can meet it.

Some promises of the code hold only under a condition. For these the exact condition is proved, in both
directions: `CubicResamplerRuns.StepLimit` (a step above four frames breaks the window move),
`FrameRing.StrideCondition` (packets with fewer channels than there are outputs),
`ReceiveBudget.AlwaysUsedUp` (input left unread when downsampling), `FrameReader.EverySlotFilled` (three
failed reads in a row), `Transmission.ExactlyTheSentPackets` (a first packet with the number the receiver
starts with), `Transmission.CopiesEnd` (a redundancy of 255), `Packets.FaithfulExactly` (buffers of 65536
bytes and more, and buffers whose odd part does not fit in a packet), `Packets.RoundExactly` (slicing a
buffer that is shorter than a slice or not a power of two of frames), `ReceptorInfo.NameComesBackExactly`
and `ReceptorInfo.NumberComesBackExactly` (separators and quotes in a stream name).

To verify: `dafny verify dfyconfig.toml`.

## Model

| member | source | states |
|---|---|---|
| Schedule.Merge | vban_common/zita-resampler/vresampler.cc:222-372 | a call followed by a second one consumes and makes what a single call with both counts does |
| Schedule.ChunkingIsInvisible | vban_common/zita-resampler/vresampler.cc:222-372 | any cut of the same input and output counts into calls ends in the state of one call |
| SlidingWindow.StoreFrame | vban_common/zita-resampler/vresampler.cc:226-239 | storing an input frame in every channel row extends the buffered piece of the stream by it |
| SlidingWindow.Relocate | vban_common/zita-resampler/vresampler.cc:359-370 | the memmove at the wrap point keeps the buffered piece of the stream, at column 0 |
| SlidingWindow.Convolve | vban_common/zita-resampler/resampler.cc:288-300 | the two pointers running towards each other compute the kernel sum over the unbounded stream; the bias cancels |
| SlidingWindow.WriteFiltered | vban_common/zita-resampler/resampler.cc:287-300 | one filtered frame goes behind what was written before, the rest of the block is untouched |
| SlidingWindow.FilteredLocal | vban_common/zita-resampler/resampler.cc:214-233 | frames fed later do not change an output whose window is complete |
| SlidingWindow.FilteredQuiet | vban_common/zita-resampler/resampler.cc:237-306 | the recent-zeros shortcut writes what the filter would have written, for any coefficients |
| SlidingWindow.FilteredImpulse | vban_common/zita-resampler/resampler.cc:287-300 | a single sample comes out as the coefficient that meets it: the first row forwards over the first half of the window, the second backwards over the second half, zero outside |
| SlidingWindow.FilteredSuperposed | vban_common/zita-resampler/resampler.cc:287-300 | streams added and multiplied come out added and multiplied |
| SlidingWindow.FramesAt | vban_common/zita-resampler/resampler.cc:218-227 | sample j of frame k is the caller's sample k * nchan + j, or zero behind a null pointer |
| SlidingWindow.PutAt | vban_common/zita-resampler/resampler.cc:287-305 | sample j of output frame k lies k * nchan + j behind where writing began, nothing else changes |
| VariableResampler.VResampler.Setup | vban_common/zita-resampler/vresampler.cc:64-115 | exactly the out-of-range settings are refused; otherwise the resampler starts at frame 0 with lengths scaled to the ratio, and every later access is in range |
| VariableResampler.VResampler.Clear | vban_common/zita-resampler/vresampler.cc:118-140 | leaves an unusable but valid resampler |
| VariableResampler.VResampler.Reset | vban_common/zita-resampler/vresampler.cc:180-198 | forgets stream and position and keeps the steps; fails without a table |
| VariableResampler.VResampler.SetRRatio | vban_common/zita-resampler/vresampler.cc:157-163 | the target step times the ratio times the factor, which is cut off at 0.95 and 16, is one frame; all later accesses stay in range |
| VariableResampler.VResampler.SetRRFilt | vban_common/zita-resampler/vresampler.cc:150-154 | the filter weight stays in (0, 1], and for t of at least 1 between 1/(t+1) and 1/t |
| VariableResampler.VResampler.SetPhase | vban_common/zita-resampler/vresampler.cc:143-147 | any argument leaves a phase within one frame |
| VariableResampler.VResampler.FeedFrame | vban_common/zita-resampler/vresampler.cc:224-240 | one frame moves from the caller's block, or silence, to the end of the stream; the zero counter stays truthful |
| VariableResampler.VResampler.WriteFrame | vban_common/zita-resampler/vresampler.cc:243-345 | by filter or by shortcut, the output is the interpolated kernel at the current position of the stream |
| VariableResampler.VResampler.Advance | vban_common/zita-resampler/vresampler.cc:346-371 | the position moves by the drifted step, and the window follows it inside the buffer |
| VariableResampler.VResampler.Process | vban_common/zita-resampler/vresampler.cc:201-381 | consumption, final position and step are those of the greedy machine; the fed stream grows by exactly the consumed frames; the caller's block receives the frames at the positions passed, and nothing else changes |
| VariableResampler.Interpolate | vban_common/zita-resampler/vresampler.cc:247-325 | both scratch rows are the table rows interpolated at the fractional phase, the second mirrored |
| VariableResampler.DriftStaysBetween | vban_common/zita-resampler/vresampler.cc:348-350 | the drifted step lies between the old step and the target |
| VariableResampler.DriftIsFirstOrder | vban_common/zita-resampler/vresampler.cc:348-350 | the new step is step + weight * (target - step) up to 1e-20 |
| VariableResampler.RowsAtWholePhase | vban_common/zita-resampler/vresampler.cc:247-251 | at a whole phase n the coefficients are rows n and np - n of the table |
| VariableResampler.RowsBetween | vban_common/zita-resampler/vresampler.cc:321-325 | between two phases every coefficient lies on the line between those of the two rows |
| VariableResampler.StepWithinWindow | vban_common/zita-resampler/vresampler.cc:157-163 | whatever factor is asked for, one step moves by at most the length of half the window, and step times ratio is one frame |
| VariableResampler.StepKeepsBounds | vban_common/zita-resampler/vresampler.cc:348-371 | phase and window start stay in bounds, at most 2*hl frames become needed, and splitting off whole frames keeps the position |
| VariableResampler.ScaledLengthBounds | vban_common/zita-resampler/vresampler.cc:79-87 | the rounded-up lengths make the window at least eight output frames long |
| VariableResampler.ScaledLengthLeast | vban_common/zita-resampler/vresampler.cc:79-87 | the scaled length is the least of that kind |
| VariableResamplerRuns.PositionsAccumulate | vban_common/zita-resampler/vresampler.cc:351-357 | output n lies at the start plus the sum of the steps taken, its window at the floor of that |
| VariableResamplerRuns.SettledPositions | vban_common/zita-resampler/vresampler.cc:348-357 | with a settled step output n lies at n steps, its window at the floor of that |
| VariableResamplerRuns.StepConverges | vban_common/zita-resampler/vresampler.cc:348-350 | the distance to the target step shrinks geometrically until it is cut to zero |
| VariableResamplerRuns.RunReach | vban_common/zita-resampler/vresampler.cc:222-241 | every output of a call is made only when its window is complete |
| VariableResamplerRuns.OutputImpulse | vban_common/zita-resampler/vresampler.cc:243-338 | a single sample comes out as the table coefficient for its place in the window, interpolated between the rows on both sides of the phase |
| VariableResamplerRuns.OutputsSuperpose | vban_common/zita-resampler/vresampler.cc:326-338 | outputs of added and multiplied streams are added and multiplied |
| VariableResamplerRuns.WrittenAt | vban_common/zita-resampler/vresampler.cc:326-344 | where in the caller's block each sample of each output of a call is |
| VariableResamplerRuns.CallWrites | vban_common/zita-resampler/vresampler.cc:235-345 | what a call writes from the frames fed so far is what it would write knowing the whole input |
| VariableResamplerRuns.OutputMerge | vban_common/zita-resampler/vresampler.cc:201-381 | two calls make the frames of one call with both counts |
| VariableResamplerRuns.ChunkedOutputs | vban_common/zita-resampler/vresampler.cc:201-381 | any cut of the same counts into calls makes the same frames, even while the step drifts |
| Gcd.ComputeGcd | vban_common/zita-resampler/resampler.cc:38-58 | the remainder loop ends, and with all its early exits returns the greatest common divisor |
| Gcd.LowestTerms | vban_common/zita-resampler/resampler.cc:102-104 | dividing both rates by it leaves coprime numbers |
| FixedResampler.Resampler.Setup | vban_common/zita-resampler/resampler.cc:85-141 | np and dp are the rates in lowest terms, at most 1000 phases are accepted, and a refusal has one of the source's reasons |
| FixedResampler.Resampler.Reset | vban_common/zita-resampler/resampler.cc:175-193 | forgets input and outputs, fails without a table |
| FixedResampler.Resampler.FeedFrame | vban_common/zita-resampler/resampler.cc:216-232 | one frame, or silence, joins the stream; outputs made before stay right |
| FixedResampler.Resampler.WriteFrame | vban_common/zita-resampler/resampler.cc:235-307 | the block receives output number k of the specification, k being how many were made |
| FixedResampler.Resampler.Advance | vban_common/zita-resampler/resampler.cc:308-329 | integer phase and window start stay those of the next output |
| FixedResampler.Resampler.Process | vban_common/zita-resampler/resampler.cc:196-338 | at every time the frames made since reset are outputs 0, 1, 2, ... of the fed stream, for any counts and null or real pointers; the block receives the new ones |
| FixedResampler.NextPlace | vban_common/zita-resampler/resampler.cc:310-316 | window start and phase of output k are quotient and remainder of k*dp by np, and one step needs at most 2*hl frames |
| FixedResampler.FaithfulLocal | vban_common/zita-resampler/resampler.cc:214-233 | outputs made stay right when the stream grows |
| FixedResampler.StepIsSmall | vban_common/zita-resampler/resampler.cc:101-118 | the guards of the set-up keep every step shorter than the filter |
| FixedResampler.ScaledUpBounds | vban_common/zita-resampler/resampler.cc:111-118 | the scaled lengths are long enough |
| FixedResampler.ScaledUpLeast | vban_common/zita-resampler/resampler.cc:111-118 | and the least of that kind |
| FixedResamplerRuns.FullTurn | vban_common/zita-resampler/resampler.cc:310-316 | np outputs move the window by exactly dp frames and return to the phase |
| FixedResamplerRuns.NoPhaseTwice | vban_common/zita-resampler/resampler.cc:310-316 | np consecutive outputs meet no phase twice |
| FixedResamplerRuns.EveryPhaseOnce | vban_common/zita-resampler/resampler.cc:310-316 | np consecutive outputs leave no phase out |
| FixedResamplerRuns.ImpulseResponse | vban_common/zita-resampler/resampler.cc:196-338 | a stream that is 1 in one frame makes output k the coefficient of row k*dp mod np for the frame's place behind k*dp/np, mirrored over the second half, zero outside |
| FixedResamplerRuns.OutputsSuperpose | vban_common/zita-resampler/resampler.cc:196-338 | if an input is the weighted sum of two others, so are the outputs |
| FixedResamplerRuns.OutputsAreDetermined | vban_common/zita-resampler/resampler.cc:196-338 | two runs over the same input make the same outputs however they are cut into calls |
| CubicResampler.CResampler.Setup | vban_common/zita-resampler/cresampler.cc:42-52 | without channels nothing changes; otherwise a run starts at frame 0 with the step 1/ratio |
| CubicResampler.CResampler.Clear | vban_common/zita-resampler/cresampler.cc:55-63 | leaves a resampler without channels |
| CubicResampler.CResampler.Reset | vban_common/zita-resampler/cresampler.cc:90-101 | starts a run at frame 0 and keeps the step |
| CubicResampler.CResampler.SetRatio | vban_common/zita-resampler/cresampler.cc:72-75 | any positive ratio keeps the resampler valid |
| CubicResampler.CResampler.FeedFrame | vban_common/zita-resampler/cresampler.cc:119-136 | one frame, or silence, joins the stream; outputs made before stay right |
| CubicResampler.CResampler.WriteFrame | vban_common/zita-resampler/cresampler.cc:140-165 | by weights or by shortcut, the output is the four-point interpolation at the current position |
| CubicResampler.CResampler.Advance | vban_common/zita-resampler/cresampler.cc:166-181 | the position moves by one step; the relocation of the window is invisible |
| CubicResampler.CResampler.Process | vban_common/zita-resampler/cresampler.cc:104-191 | a call makes as many frames as the output count drops by, the interpolations of the fed stream at consecutive positions, and the caller's block receives them; a run that started at frame 0 stays on its grid |
| CubicResamplerRuns.SpotsOnGrid | vban_common/zita-resampler/cresampler.cc:168-173 | output n lies n steps after the first |
| CubicResamplerRuns.WeightMoments | vban_common/zita-resampler/cresampler.cc:144-150 | the four weights have the moments of exact interpolation up to degree two |
| CubicResamplerRuns.BlendOfParabolas | vban_common/zita-resampler/cresampler.cc:144-158 | the interpolation is the mean, weighted by the phase, of the parabolas through the first and the last three frames of the window |
| CubicResamplerRuns.OuterFrames | vban_common/zita-resampler/cresampler.cc:146-150 | what the first and the last frame of the window contribute |
| CubicResamplerRuns.Mirrored | vban_common/zita-resampler/cresampler.cc:144-150 | a mirrored window at 1 - a gives the same value |
| CubicResamplerRuns.OnFrames | vban_common/zita-resampler/cresampler.cc:144-158 | on a frame the output is that frame |
| CubicResamplerRuns.OutputsOfRun | vban_common/zita-resampler/cresampler.cc:104-191 | every output of a run from reset, for any input: the two parabolas around frame floor(k*step) |
| CubicResamplerRuns.ReproducesQuadratics | vban_common/zita-resampler/cresampler.cc:144-158 | samples of a quadratic are interpolated to its value at window start + phase + 1 |
| CubicResamplerRuns.QuadraticGrid | vban_common/zita-resampler/cresampler.cc:144-158 | on a grid from frame 0 a quadratic P is interpolated to P(k*step + 1) |
| CubicResamplerRuns.QuadraticRun | vban_common/zita-resampler/cresampler.cc:104-191 | a resampler that was reset and then called any number of times, and fed a quadratic P, has made P(k*step + 1) for every k |
| CubicResamplerRuns.CallsOnGrid | vban_common/zita-resampler/cresampler.cc:117-183 | however the same counts are cut into calls, as many outputs are made as in one call, at the same positions |
| CubicResamplerRuns.StepLimit | vban_common/zita-resampler/cresampler.cc:168-180 | no move of a run exceeds the four frames of the window if and only if the step is at most 4 |
| RingBuffers.Spaces | vban_common/ringbuffer.h:128-157 | the pointer differences, taken modulo 2^64 and then the size, are the true distances |
| RingBuffers.SpaceToWrite | vban_common/ringbuffer.h:147-157 | read space and write space always add up to size - 1 |
| RingBuffers.Split | vban_common/ringbuffer.h:282-293 | the two parts add up, the first ends at the buffer end if there is a second |
| RingBuffers.RingBuffer.ReadSpace | vban_common/ringbuffer.h:128-137 | the length of the queue |
| RingBuffers.RingBuffer.WriteSpace | vban_common/ringbuffer.h:147-157 | the room left in a queue of size - 1 bytes |
| RingBuffers.RingBuffer.Read | vban_common/ringbuffer.h:271-305 | takes the first min(cnt, fill) bytes off the queue, in order, and touches no other byte of the destination |
| RingBuffers.RingBuffer.Peek | vban_common/ringbuffer.h:322-355 | returns what a read would return and changes nothing in the ring |
| RingBuffers.RingBuffer.Write | vban_common/ringbuffer.h:417-451 | appends the first min(cnt, room) bytes to the queue |
| RingBuffers.RingBuffer.GetReadVector | vban_common/ringbuffer.h:180-208 | the two stretches together are the queue |
| RingBuffers.RingBuffer.GetWriteVector | vban_common/ringbuffer.h:230-258 | the two stretches are the free cells behind the queue, less one |
| RingBuffers.RingBuffer.ReadAdvance | vban_common/ringbuffer.h:369-374 | drops the first cnt bytes of the queue |
| RingBuffers.RingBuffer.WriteAdvance | vban_common/ringbuffer.h:465-470 | appends what was stored behind the write pointer |
| RingBuffers.RingBuffer.ReadByVector | vban_common/ringbuffer.h:180-208 | copying from the read vector and advancing is the same as reading |
| RingBuffers.RingBuffer.WriteByVector | vban_common/ringbuffer.h:230-258 | copying to the write vector and advancing is the same as writing |
| RingBuffers.RingBuffer.Reset | vban_common/ringbuffer.h:401-405 | empties the queue |
| RingBuffers.SpanHead | vban_common/ringbuffer.h:295-302 | a stretch up to the buffer end is the front of the queue, and the wrapped pointer leaves the rest |
| RingBuffers.SpanTail | vban_common/ringbuffer.h:441-448 | bytes stored behind the queue, with the wrapped pointer, are appended to it |
| RingProtocol.StepKeeps | vban_common/ringbuffer.h:271-305 | each load, byte copy and pointer store of either thread keeps the protocol invariant, with a stale view of the other pointer |
| RingProtocol.StoreMissesUnread | vban_common/ringbuffer.h:441-448 | the writer fills only cells that hold no unread byte |
| RingProtocol.DeliveredInOrder | vban_common/ringbuffer.h:271-305 | in every interleaving the bytes delivered are a prefix of those published, these of those accepted |
| RingProtocol.OfferedIsSubmitted | vban_common/ringbuffer.h:417-451 | over any run what was accepted is, call after call, the front of the bytes each write was given, as long as the room when it looked |
| RingProtocol.TargetIsRequested | vban_common/ringbuffer.h:271-305 | over any run the reads deliver, call after call, as many bytes as each asked for and found when it looked |
| RingProtocol.DeliveredAsAsked | vban_common/ringbuffer.h:271-451 | in every interleaving the bytes delivered are a prefix of the bytes given to the writes, and as many as the reads asked for |
| RingProtocol.WriterSparesUnread | vban_common/ringbuffer.h:417-451 | in every reachable state the writer's next step leaves every unread byte as it is |
| RingProtocol.CallSizes | vban_common/ringbuffer.h:278-293 | a read takes what had been published when it loaded the write pointer, up to cnt; a write accepts what there was room for when it loaded the read pointer |
| RingProtocol.ReadReturns | vban_common/ringbuffer.h:282-304 | whatever the writer does meanwhile, a read returns after its own steps and has delivered exactly that many bytes |
| RingProtocol.WriteReturns | vban_common/ringbuffer.h:428-450 | whatever the reader does meanwhile, a write returns after its own steps and has published all it accepted |
| RingProtocol.SpaceIsExact | vban_common/ringbuffer.h:128-157 | spaces computed from both current pointers are exact |
| FrameRing.ComputeRxRingbuffer | vban_common/vban_functions.h:584-610 | the new ring has room for whole frames and holds the whole frames of silence its redundancy asks for |
| FrameRing.PrefillShare | vban_common/vban_functions.h:602-607 | the silence is nothing, a quarter or half of the ring, by redundancy |
| FrameRing.WriteFrame | vban_common/vban_functions.h:1005-1011 | the frame is appended if and only if the ring has a frame's bytes free, that is, holds less than its capacity less one; otherwise nothing changes; it is never split at the buffer end |
| FrameRing.StoreOutputs | vban_common/vban_functions.h:1005-1011 | the loop appends the stretches at multiples of the packet's channel count, in order, as many as there is room for |
| FrameRing.ReadFrame | vban_common/vban_functions.h:647-655 | takes the oldest frame, unsplit, or reports that there is none |
| FrameRing.FrameFits | vban_common/vban_functions.h:598-599 | an aligned offset leaves room for a whole frame, and the wrapped offset is aligned again |
| FrameRing.StrideCondition | vban_common/vban_functions.h:973-1009 | the frames stored are the resampled frames, for all samples in the channels that packets fill, if and only if packets have at least as many channels as there are outputs (or one frame is stored) |
| FrameRing.FramesInOrder | vban_common/vban_functions.h:647-655 | over any run the frames read are the prefill and the accepted frames, in order |
| FrameReader.Callback | vban_common/vban_functions.h:810-849 | whatever the reads of the ring find, the port buffers receive the history and what reading, extrapolating and smoothing add to it; slots beyond are untouched |
| FrameReader.ReadyAgain | vban_common/vban_functions.h:820-820 | a callback that filled every slot leaves the newest three frames where the next one takes its history from |
| Playback.Callback | vban_common/vban_functions.h:810-849 | the same on a ring: a callback takes the oldest frames off the ring, and the port buffers receive what these, decoded, make of the history |
| Playback.PlaysInFull | vban_common/vban_functions.h:836-848 | with enough frames in the ring a callback adds exactly these |
| Playback.DecodedPacked | vban_common/vban_functions.h:838-838 | the floats of a frame are its channels in order |
| Playback.PlayedInOrder | vban_common/vban_functions.h:810-849 | over any run of arriving frames and callbacks that find enough of them, history, prefill and accepted frames are what was played, the history and the rest of the ring, in order |
| Playback.DelayOfThree | vban_common/vban_functions.h:810-849 | from the start the port buffers carry the ring's frame stream three frames late |
| FrameReader.EverySlotFilled | vban_common/vban_functions.h:821-849 | every output slot is filled once if and only if no three reads in a row fail |
| FrameReader.PlainHistory | vban_common/vban_functions.h:836-848 | without underrun a callback adds exactly the frames read |
| FrameReader.ExtrapolatesParabolas | vban_common/vban_functions.h:830-831 | a missing sample becomes 0.8 times the next value of the parabola through the last three |
| FrameReader.SmoothsTowardsParabolas | vban_common/vban_functions.h:840-841 | the sample behind a gap is mixed, 0.3 to 0.3, with that value |
| FrameReader.GapIsBridged | vban_common/vban_functions.h:824-835 | the first two of a row of failed reads are filled so, further ones are not filled |
| FrameReader.BehindGap | vban_common/vban_functions.h:839-844 | the frame behind one or two failed reads is smoothed, behind more or none it is kept |
| FrameReader.LossesAreCounted | vban_common/vban_functions.h:824-826 | the losses reported are the reads that found nothing |
| FrameReader.DelayLine | vban_common/vban_functions.h:810-849 | over any number of callbacks without underrun the reader is a delay of three frames |
| Transmission.CopiesEnd | vban_common/vban_functions.h:682-682 | the 8-bit counter of the copies ends its loop if and only if the redundancy is below 255 |
| Transmission.Send | vban_common/vban_functions.h:677-702 | the datagrams sent are the packets in order, each redundancy + 1 times and more under one number modulo 2^32 |
| Transmission.SequenceCounts | vban_common/vban_functions.h:682-700 | every packet is sent as often as its copies say |
| Transmission.SurvivingDatagrams | vban_common/vban_functions.h:682-700 | losing copies on the way loses nothing else |
| Transmission.Receive | vban_common/vban_functions.h:968-1021 | the payloads accepted are those of the packets the duplicate check takes |
| Transmission.TakenIncreasing | vban_common/vban_functions.h:968-972 | whatever is lost, packets are taken in order and none twice |
| Transmission.TakenArrived | vban_common/vban_functions.h:968-972 | only packets that arrive are taken |
| Transmission.ArrivingIsTaken | vban_common/vban_functions.h:968-972 | every arriving packet is taken if and only if no neighbours are a multiple of 2^32 apart and the first has another number than the receiver starts with |
| Transmission.CoveringHasNoAlias | vban_common/vban_functions.h:970-970 | with a copy of each packet arriving, only the first number can be mistaken, across the wrap-around too |
| Transmission.ExactlyTheSentPackets | vban_common/vban_functions.h:968-1021 | the receiver takes exactly the packets sent if and only if a copy of each arrives and the first number is not its initial one |
| Transmission.PayloadsComeThrough | vban_common/vban_functions.h:968-1021 | the payloads handed on are those sent, in order, when a copy of each packet arrives and the first number is new |
| Packets.TxContext.TuneTxPackets | vban_common/vban_functions.cpp:118-156 | the halving loop ends within both limits after at most ten halvings, no field is cut off but the length; the configured packets are good exactly when the buffer fits in packets, a round of ticks exactly when it fits in slices |
| Packets.SliceDuration | vban_common/vban_functions.cpp:130-138 | a slice is the longest doubling of 64 frames that lasts at most 64/44100 s |
| Packets.TxContext.SendT32Fragment | vban_common/vban_functions.h:706-736 | a tick sends the packets of its slice |
| Packets.TxContext.Tick | vban_emitter_jack/main.cpp:60-66 | a tick sends its slice and moves to the next index, after the last to the first |
| Packets.FaithfulExactly | vban_common/vban_functions.cpp:123-150 | packets are whole frames, as many as the header says, and make up the buffer if and only if the buffer is below 65536 bytes and its odd part, in frames and in bytes, fits in one packet |
| Packets.HalvingsDivide | vban_common/vban_functions.cpp:145-149 | the packet count divides the frame count if and only if the odd part fits in one packet |
| Packets.PowerOfTwoFits | vban_common/vban_functions.cpp:145-149 | for a power of two of frames it is enough that a frame fits in a packet |
| Packets.SlicesMakeUpBuffer | vban_common/vban_functions.cpp:151-153 | ticks per buffer times packets per tick is the packet count if and only if the buffer has a power of two of frames and is at least a slice long |
| Packets.RoundExactly | vban_emitter_jack/main.cpp:60-66 | one round of ticks sends all of the buffer in good packets if and only if it has a power of two of frames, at least a slice of them, a frame fits in a packet, and the buffer is below 65536 bytes |
| Packets.TickCycle | vban_emitter_jack/main.cpp:60-66 | one round of ticks sends every packet once, in order, and ends at index 0 |
| ReceiveBudget.OutputsFit | vban_common/vban_functions.h:985-989 | the outputs a packet adds always fit in the room computed for them |
| ReceiveBudget.PacketUsedUp | vban_common/vban_functions.h:999-1003 | what a packet makes at any point of a run, and exactly when a rest of it stays unread |
| ReceiveBudget.AlwaysUsedUp | vban_common/vban_functions.h:978-1003 | packets of N frames are used up at every point of a run if and only if (N-1)*p is at most floor(N*p/q)*q |
| ReceiveBudget.UpsamplingIsRoomy | vban_common/vban_functions.h:985-989 | a host rate not below the stream rate meets that condition |
| ReceiveBudget.NothingIsLost | vban_common/vban_functions.h:978-1003 | over any run of such packets every frame is consumed and ceil(total*p/q) outputs are made |
| ReceiveBudget.StartPlaces | vban_common/zita-resampler/vresampler.cc:348-357 | with no correction the resampler's position for output k is floor(k*q/p) |
| ReceiveBudget.ResamplerFollows | vban_common/zita-resampler/vresampler.cc:201-381 | the resampler consumes and makes what the integer model says |
| ReceiveBudget.Prefill | vban_receptor_jack/main.cpp:351-361 | the zero prefill is stored completely and makes no output |
| ReceiveBudget.ResamplerUsesUpPacket | vban_common/vban_functions.h:999-1003 | when not downsampling, a packet at any point of a run is read to its last frame and makes ceil((M+N)p/q) - ceil(Mp/q) outputs |
| CoefficientTables.TableList.Find | vban_common/zita-resampler/resampler-table.cc:116-126 | finds the first listed table that fits |
| CoefficientTables.TableList.Create | vban_common/zita-resampler/resampler-table.cc:111-133 | hands out the first table of the shape within a thousandth of the frequency, or a new one at the front exactly when there is none; counts equal outstanding handles, the list has no cycle |
| CoefficientTables.TableList.Destroy | vban_common/zita-resampler/resampler-table.cc:136-163 | a table leaves the list exactly when its last handle is given back |
| CoefficientTables.TableList.Renew | vban_common/zita-resampler/vresampler.cc:91-95 | creating before clearing keeps a table that still fits, and its count |
| CoefficientTables.UnlinkedDistinct | vban_common/zita-resampler/resampler-table.cc:146-158 | unlinking removes exactly one table and repeats none |
| Multistream.Context.Pop | vban_common/vban_client_list.cpp:41-49 | removes the first client, fails on an empty list |
| Multistream.Context.RemoveByIndex | vban_common/vban_client_list.cpp:70-88 | removes client n and keeps the order of the others, fails beyond the end |
| Multistream.Context.Find | vban_receptor_jack/main.cpp:164-182 | finds the first client with the packet's sender and stream name |
| Multistream.Context.Dispatch | vban_receptor_jack/main.cpp:164-269 | forwards to and wakes the packet's client, or appends a new one if there is room |
| Multistream.Context.Tick | vban_common/vban_functions.cpp:216-245 | clients age up to the first expired one, which is removed and ends the pass |
| Multistream.StepSound | vban_receptor_jack/main.cpp:183-263 | a step keeps client limit, unique keys and timers of at most 4 |
| Multistream.AlwaysSound | vban_receptor_jack/main.cpp:160-269 | the same in every reachable state |
| Multistream.OrderIsKept | vban_common/vban_client_list.cpp:70-88 | a step appends one client, or removes one expired one, and keeps the others in order |
| Multistream.SurvivesFourPasses | vban_common/vban_functions.cpp:218-245 | a client outlives four timer passes after its last packet |
| Multistream.PacketWakes | vban_receptor_jack/main.cpp:173-262 | after a packet its client is present with timer 0 if and only if it was known or there was room |
| Multistream.SilentClientExpires | vban_common/vban_functions.cpp:216-245 | a silent client is gone after five passes and one more for each client in front of it |
| MedianFilter.MedianFilterInt.constructor | vban_alsa_util/MedianFilterInt.h:7-13 | an odd window of zeros |
| MedianFilter.MedianFilterInt.Process | vban_alsa_util/MedianFilterInt.h:15-35 | the result is the median of the newest values, and the sorted array is the sorted window |
| MedianFilter.MedianFilterInt.Replace | vban_alsa_util/MedianFilterInt.h:17-23 | the evicted value is always found, so the fallback index is never used |
| MedianFilter.MedianFilterInt.Reset | vban_alsa_util/MedianFilterInt.h:37-42 | a window full of the initial value |
| MedianFilter.MoveLeft | vban_alsa_util/MedianFilterInt.h:24-28 | swaps put the new value before all greater ones, as a permutation |
| MedianFilter.MoveRight | vban_alsa_util/MedianFilterInt.h:29-33 | swaps put it behind all smaller ones, and the array is sorted again |
| MedianFilter.NewestValues | vban_alsa_util/MedianFilterInt.h:15-35 | after any series the window is its newest values, initial values filling the start |
| MedianFilter.MedianRank | vban_alsa_util/MedianFilterInt.h:34-34 | the median is a value of the window with at most half of the others below and at most half above |
| MedianFilter.SortedUnique | vban_alsa_util/MedianFilterInt.h:34-34 | the sorted arrangement, and so the median, is determined by the values |
| ReceptorInfo.GetValueByKey | vban_common/vban_functions.cpp:4-33 | returns the value behind the first key that stands as a word before an equals sign, if it fits |
| ReceptorInfo.ReadValue | vban_common/vban_functions.cpp:15-28 | the value up to its closing quote or to a separator, if it fits |
| ReceptorInfo.LookupFindsValue | vban_common/vban_functions.cpp:9-31 | in printed fields a key's value comes back if and only if it does not start with a quote and fits, whatever other values contain |
| ReceptorInfo.QuotedComesBack | vban_common/vban_functions.cpp:17-27 | a value in quotes comes back without them if and only if the quote is not in it and it fits, separators or not |
| ReceptorInfo.PlainComesBack | vban_common/vban_functions.cpp:24-27 | a value without quotes ends at a space, a comma or a semicolon |
| ReceptorInfo.InfoText | vban_common/vban_functions.cpp:164-169 | the printed text, field by field |
| ReceptorInfo.DecimalReads | vban_common/vban_functions.cpp:164-169 | the digits printed for a number say the number |
| ReceptorInfo.EveryValueComesBack | vban_common/vban_functions.cpp:158-170 | every printed value is read back, even if the stream name contains keys and equals signs |
| ReceptorInfo.NameComesBackExactly | vban_common/vban_functions.cpp:158-170 | the stream name comes back if and only if it has no separator, does not start with a quote and fits |
| ReceptorInfo.NumberComesBackExactly | vban_common/vban_functions.cpp:158-170 | with any stream name, a number printed behind it is read back if and only if it fits and the printed name alone carries no value for its key, or the same one |
| ReceptorInfo.SeparatorOverrides | vban_common/vban_functions.cpp:9-31 | a name with a separator can carry a field of its own that overrides the printed one |

## Left out

- Rounding of `float` and `double`: samples, phases and steps are exact reals, so the 1e-30 bias cancels exactly.
- The SSE2 and NEON branches and the rounding of `hl` to a multiple of four that goes with them; the scalar branch is modelled.
- The contents of the coefficient tables: an arbitrary function of row and column stands for them.
- The layout of `_buff` in memory: it is a two-dimensional array with a row for each channel; `CResampler`'s `_buff[f * nchan + c]` is cell (c, f). A pointer into it is a column number.
- The caller's input pointer is a sequence that loses the samples it moves past; the locals of `process` are the fields they are loaded from and stored to.
- The resamplers take their table's contents as a parameter of the set-up; `CoefficientTables` models the shared list by itself, its mutex by making calls atomic.
- VariableResampler.VResampler.SetRRFilt: the value 1 - exp(-1/t) is a parameter, of which only its bounds 1/(t+1) and 1/t are known.
- FixedResampler.Resampler.Setup: requires one of the two rates to be positive; with both zero the source divides by zero.
- CubicResampler.CResampler.Setup: requires a positive ratio, also in `SetRatio`.
- CubicResampler.CResampler.Process: requires channels and a step of at most 4, which the source does not check; `CubicResamplerRuns.StepLimit` says what happens beyond.
- RingBuffers.RingBuffer.constructor: sizes up to half the address space; allocation failures, `ringbuffer_mlock` and `ringbuffer_reset_size` are not modelled.
- Weak memory: the two threads of `RingProtocol` see sequentially consistent memory.
- FrameRing.ComputeRxRingbuffer: requires at least one frame and one channel, and a ring size that the source's int can hold; freeing a ring that was there before is left out.
- FrameReader.Callback: stops before the handling of lost packets (vban_common/vban_functions.h:851-872) and needs at least three frames per callback.
- Playback.Callback: the same; the ring is left alone by the receiving thread during a callback, and a float is read from its bytes by a function that is a parameter.
- The interleaved reader (vban_common/vban_functions.h:738-808), which smooths even when nothing is lost.
- Transmission.Send: requires fewer than 255 redundant copies, for which `Transmission.CopiesEnd` gives the reason; when a tick sends, copies and numbers are handled the same way.
- Transmission.Receive: of the packet handler's conditions only the packet number; stream name and sender address match.
- Packets.TxContext.TuneTxPackets: requires at least one frame and one channel, fewer than 65536 channels, and assumes that the buffer length does not overflow an int; the slice period of the timer is left out.
- ReceiveBudget.ResamplerUsesUpPacket: the correction factor is 1; the control loops that choose it (`calc_rbfill_pi`, `calc_ratio_correction`) are not modelled.
- Sample format conversion in the packet handler, which is arithmetic on single samples.
- Multistream.Context.Dispatch: a packet is one atomic step, and so is a timer pass; processes, pipes and packet contents are left out, as are `remove_last`, `append_to_list` and `push`, which the dispatch does not use in these cases.
- ReceptorInfo.GetValueByKey: an empty key that is not found, with which the source's search runs past the end of the text; strings hold no NUL.
- The client counts that a multistream receptor appends to its info text (vban_receptor_jack/main.cpp:275).
- `cfmed`, `lfqueue`, and MIDI, text and message packets.
- Sockets, timers, threads, option parsing and the JACK, PipeWire and ALSA backends: calls into code outside the repository.

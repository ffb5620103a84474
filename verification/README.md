# Around: verified models of the audio engine

A Dafny model of the parts of Around that carry state machines, arithmetic
bounds and orders of events, with proofs over every input, every split of a
stream and every interleaving. Classes and loops follow the Rust code; each of
their methods is proved to compute a specification function or relation, and the
theorems are lemmas about those.

`dafny verify dfyconfig.toml` checks everything.

## What is modelled

- **Terminal conversion** (`Resampler`, `SampleCodec`, `SampleLaws`, `BlockLayout`,
  `FilterChain`, `ChainLaws`, `ChannelLaws`). The resampling position is an exact rational
  (numerator over the output rate) and samples are reals. A stream submitted in
  any split into blocks yields the bytes of the stream converted as a whole.
- **Planner and session** (`PlanOrder`, `OutputPlan`, `PlanLaws`, `PlanChoice`,
  `OutputSession`, `SessionLaws`). The nested loops return the unique least candidate of the
  8-key order; the session keeps chain, plan and binding in agreement.
- **Decode loop** (`DecodeScript`, `DecodeEnds`, `DecodeRun`, `DecodeLoop`). The synchronous loop
  driving a real session, as one function of the script it meets: what reaches the
  device is the conversion of what the codec delivered since the last rebind.
- **Stream lifecycle** (`StreamLifecycle`). Prepare, repeated runs and the end of
  the engine as interleaved steps over shared state.
- **Output ring** (`OutputRing`, `RingLaws`). Producer writes and audio callbacks.
- **Byte codecs** (`Bytes`, `VarintFraming`, and the WAV sample decoder in
  `SampleCodec`). The framing follows the Protocol Buffers Encoding
  specification, section "Base 128 Varints".
- **Extension framework** (`Registers`, `Extensions`, `ScanLaws`, `LoadLaws`,
  `UnloadLaws`, `SymbolLaws`, `AnswerLaws`, `Framework`, `FrameworkRuns`). Scan, recursive load, unload and
  two-phase reload over a finite disk map and its directories, with an allocator
  that may reuse freed metadata addresses.

Environment as parameters: decoded samples and codec answers, device loss, the
discovered snapshot, the float-to-bytes functions of f32/f64, endianness, what a
library exports and returns, directory contents and their order, heap addresses.

## Findings

- 64-bit integer output wraps at full scale, because the scale constant rounds to
  a power of two: such samples read back as the lowest value, far from the input
  (`SampleCodec.StoredError`), so order is not kept (`SampleCodec.OrderKeptBelow64`).
- `fill_silence` matches the encoding of 0.0 on little-endian builds or for
  encodings that are not unsigned, and only there (`OutputRing.SilenceIsZeroSample`).
- The framing writer has no size limit, while the framing reader refuses messages
  over 64 MiB (`VarintFraming.FrameRoundTrip`).
- A plan made from the binder's own snapshot is refused exactly when an earlier
  mode with the same id does not offer the planned format
  (`OutputSession.OwnPlanAcceptedExactly`; an instance is
  `OutputSession.OwnPlanRefused`).
- A reload under another name than the extension it replaces registers entries
  twice in re-defined slots, or not at all in slots owned by that other name; so
  does a commit after slots have changed hands
  (`UnloadLaws.RegisteredOnceExactly`; an instance is `UnloadLaws.EnteredTwice`, and
  `FrameworkRuns.RunEntersTwice` reaches it from an empty framework).
- `commit_reload` stores the new dependencies without checking them; the
  loaded set stays closed exactly when they happen to be loaded
  (`UnloadLaws.ReloadKeepsWellFormedExactly`).

## Model

| member | source | states |
|---|---|---|
| Resampler.SplitIndependent | crates/around-engine/src/filter_chain.rs:434-497 | For every split of a stream into blocks, the joined outputs are the reference output, the linear interpolation of the input at k·in/out, equal one call on the whole stream and leave the same state; exactly ceil((N−1)·out/in) frames come out |
| Resampler.BlockStep | crates/around-engine/src/filter_chain.rs:455-497 | From the state any prefix leaves, one block produces exactly the frames that became due and leaves the longer prefix's state |
| Resampler.ConvertIsUncut | crates/around-engine/src/filter_chain.rs:455-526 | With ceil(n·out/in) frames of room the loop ends on its position test and not on the capacity, every frame read has a real right neighbour so that the index clamps of the samples never fire, the new position needs no clamp at zero, and the kept history is the block's last frame |
| Resampler.PendingBound | crates/around-engine/src/filter_chain.rs:298-311 | No call on n frames produces more than ceil(n·out/in), at any state |
| Resampler.FramesDueCounts | crates/around-engine/src/filter_chain.rs:470-480 | Output frame k is due exactly when k·in < (n−1)·out, and then both its neighbours exist |
| Resampler.MapLerp | crates/around-engine/src/filter_chain.rs:499-541 | Interpolating then mapping channels, as the kernel does, equals mapping then interpolating |
| ChannelLaws.SameChannels | crates/around-engine/src/filter_chain.rs:499-541 | With equal channel counts a frame leaves as it came, channel by channel |
| ChannelLaws.OtherChannels | crates/around-engine/src/filter_chain.rs:499-541 | Fewer channels, other than one, keep the same-numbered ones; more repeat the last |
| ChannelLaws.MonoIsTheMean | crates/around-engine/src/filter_chain.rs:499-541 | A mono target weights every channel equally: a constant frame keeps its value, and a change of one of n channels changes the output by an n-th of it |
| ChannelLaws.StereoToMono | crates/around-engine/src/filter_chain.rs:499-541 | Left and right become (l + r) / 2 |
| ChannelLaws.WeightedNeighbours | crates/around-engine/src/filter_chain.rs:470-541 | Output frame k is the average of the two input frames around time k·in/out, weighted by nearness, for any channel counts |
| ChannelLaws.LinesStayLines | crates/around-engine/src/filter_chain.rs:470-541 | A straight line a + b·f on a channel comes out as a + b·(k·in/out) on that channel |
| ChannelLaws.CutCall | crates/around-engine/src/filter_chain.rs:470-497 | A call cut short by its capacity fills it, restarts at position zero and keeps the frame it had reached |
| FilterChain.FilterChain.ConvertF32Stateful | crates/around-engine/src/filter_chain.rs:434-497 | The in-place kernel over flat arrays computes the frame-level conversion, its history array included; too many channels change nothing |
| FilterChain.FilterChain.MappedStatefulSample | crates/around-engine/src/filter_chain.rs:499-541 | The clamped reads of one output sample are the mapped interpolation of two frames of history followed by block |
| FilterChain.FilterChain.ConvertF32Stateless | crates/around-engine/src/filter_chain.rs:365-432 | At equal rates every frame is channel-mapped in place of interpolated |
| FilterChain.FilterChain.ProcessToOutput | crates/around-engine/src/filter_chain.rs:251-342 | Checks, filters, conversion and encoding in the borrowed regions: the new history, the exact bytes, the error of each failing stage, the filter region left behind, and no output byte touched on error or past the block |
| FilterChain.FilterChain.ProcessWorkspace | crates/around-engine/src/filter_chain.rs:344-363 | The same on the decode region, refusing a count that overflows or exceeds it with nothing changed |
| FilterChain.FilterChain.ReconfigureOutput | crates/around-engine/src/filter_chain.rs:222-227 | A new output format starts from an empty history and position zero |
| FilterChain.FilterChain.WorkspaceRequirements | crates/around-engine/src/filter_chain.rs:229-238 | Filter and scratch regions of the first result and an output region of the second make a workspace sized for that many samples, and nothing smaller is called so; what such a workspace does is ChainLaws.ProcessSucceedsExactly |
| FilterChain.PreservedStage | crates/around-engine/src/filter_chain.rs:283-293 | Length- and channel-preserving filters leave count and channels as they were, in any number |
| FilterChain.FramesConcat | crates/around-engine/src/filter_chain.rs:448-470 | Whole blocks of samples split into frames independently of each other |
| FilterChain.PcmBuffer.WithProcessingCapacity | crates/around-engine/src/pcm_buffer.rs:18-29 | Four distinct regions of the requested sizes, filter and scratch of equal length |
| ChainLaws.ProcessSucceedsExactly | crates/around-engine/src/filter_chain.rs:251-342 | With preserving filters a call succeeds exactly when the filter region holds the block, the scratch region the frames the conversion asks for, and the output the frames due at the resampler's state |
| ChainLaws.ProcessErrors | crates/around-engine/src/filter_chain.rs:251-342 | The error of each failing stage with its sizes, in order, and that only a block too long for the output has moved the resampler |
| ChainLaws.OneFilterStage | crates/around-engine/src/filter_chain.rs:283-293 | A filter rewrites the meaningful samples, keeps the rest, and announces sample and channel counts, refused above 32 channels |
| ChannelLaws.PlainChainEncodes | crates/around-engine/src/filter_chain.rs:251-342 | Without filters, between formats of equal rate and channel count, the output is the encoding of the very samples given |
| ChannelLaws.FiltersInOrder | crates/around-engine/src/filter_chain.rs:283-293 | Filters apply in their order, each to what the one before left |
| ChannelLaws.OneFilter | crates/around-engine/src/filter_chain.rs:283-293 | and one filter gives each sample what it makes of it |
| ChannelLaws.RegionAfter | crates/around-engine/src/filter_chain.rs:266-293 | A refused block leaves the filter region alone, any other leaves its filtered samples there before the old rest |
| ChainLaws.SizesAreTight | crates/around-engine/src/filter_chain.rs:229-342 | With resampling and one length for filter and scratch, a block of the whole maximum converts exactly when that length is at least the required one, even with two frames less output than required |
| ChainLaws.SizedNeverTooSmall | crates/around-engine/src/filter_chain.rs:229-342 | A workspace sized for max samples converts and encodes every block of whole frames up to that size, at any resampler state, with preserving filters |
| ChainLaws.ConvertedCount | crates/around-engine/src/filter_chain.rs:298-311 | Conversion always stays two frames below the room reserved for it |
| ChainLaws.EachCallContinuesTheStream | crates/around-engine/src/filter_chain.rs:251-363 | End to end, in either output layout: on a fresh chain with per-sample, length-preserving filters, for any split into whole frames and any sized workspaces, each call succeeds and yields the encoding of exactly the frames by which the output of the stream so far grows |
| ChainLaws.BytesIndependentOfBlocks | crates/around-engine/src/filter_chain.rs:251-363 | For interleaved output those bytes join into the encoding of the stream converted as a whole, under the same conditions on filters and workspaces |
| SampleCodec.StoredValue | crates/around-engine/src/filter_chain.rs:586-629 | The bytes of a sample read back as the computed integer for all 12 integer encodings, except that 64-bit full scale wraps |
| SampleCodec.StoredError | crates/around-engine/src/filter_chain.rs:586-618 | Reading back is within 1.5 steps of the clamped input if and only if the sample does not wrap, which only 64-bit samples at full scale do |
| SampleCodec.StoredMonotone | crates/around-engine/src/filter_chain.rs:586-618 | Order is kept exactly unless the larger sample overflows while the smaller is above the minimum |
| SampleCodec.OrderKeptBelow64 | crates/around-engine/src/filter_chain.rs:599-618 | An integer encoding is monotone on all inputs if and only if it is narrower than 64 bits |
| SampleCodec.SilenceIsMidpoint | crates/around-engine/src/filter_chain.rs:586-618 | 0.0 is zero when signed and the midpoint when unsigned |
| SampleCodec.WavRoundTrip | crates/around-codec-wav/src/lib.rs:355-378 | Re-encoding a decoded 8-, 16- or 24-bit sample returns its bytes exactly up to half of full scale, negatives included, and the next lower integer above it |
| SampleLaws.WavValues | crates/around-codec-wav/src/lib.rs:355-390 | A decoded sample is its two's-complement integer over half its range, for 8, 16, 24 and 32 bits |
| SampleLaws.WavExamples | crates/around-codec-wav/src/lib.rs:355-390 | Four byte strings and the samples they decode to |
| SampleLaws.SampleDigit | crates/around-engine/src/filter_chain.rs:586-618 | Byte k of a little-endian integer sample is digit k in base 256 of the computed integer modulo 2^bits |
| SampleLaws.Orders | crates/around-engine/src/filter_chain.rs:586-629 | The big-endian sample is the little-endian one reversed, for every encoding, and the native one is the build's |
| SampleLaws.FloatSample | crates/around-engine/src/filter_chain.rs:586-600 | Float samples are the bytes of the value clamped to one, saturating at both ends |
| SampleLaws.RoundHalves | crates/around-engine/src/filter_chain.rs:599-617 | Rounding is to the nearest integer, halves away from zero |
| SampleLaws.FullScale | crates/around-engine/src/filter_chain.rs:599-617 | Below 64 bits −1 and 1 are the lowest and the highest integer |
| SampleLaws.SixteenBitBig | crates/around-engine/src/filter_chain.rs:586-629 | −1 in big-endian 16 bits is 80 00 |
| SampleLaws.SixteenBitTop | crates/around-engine/src/filter_chain.rs:586-629 | 1 in little-endian 16 bits is FF 7F |
| SampleLaws.EightBitEnds | crates/around-engine/src/filter_chain.rs:586-629 | Unsigned 8 bits run from 00 to FF, and louder samples stay at FF |
| SampleLaws.HalfScale | crates/around-engine/src/filter_chain.rs:586-629 | One half in little-endian 24 bits is 00 00 40 |
| BlockLayout.EncodeF32 | crates/around-engine/src/filter_chain.rs:543-584 | The whole block or an error with nothing written; no byte past the block changes |
| BlockLayout.EncodedByte | crates/around-engine/src/filter_chain.rs:560-584 | Where every sample's bytes go, in both layouts |
| BlockLayout.ByteOwner | crates/around-engine/src/filter_chain.rs:560-584 | Every byte of the block belongs to some (frame, channel) sample |
| BlockLayout.OwnerUnique | crates/around-engine/src/filter_chain.rs:560-584 | and to only one |
| BlockLayout.EncodePlanar | crates/around-engine/src/filter_chain.rs:560-584 | The planar writer puts each sample's bytes at the slot PlanarBuffer gives it |
| BlockLayout.PlanarEncodingIsPlanarBuffer | crates/around-engine/src/filter_chain.rs:560-584 | so encoding for a planar target is encoding the filled buffer slot after slot |
| BlockLayout.PlanarRoundTrip | crates/around-core/src/types.rs:287-309 | write_interleaved undoes fill_from_interleaved on every block |
| BlockLayout.PlanarBuffer.FillFromInterleaved | crates/around-core/src/types.rs:287-295 | The loop fills the planar array in place with that placement, given a full source |
| BlockLayout.PlanarBuffer.WriteInterleaved | crates/around-core/src/types.rs:300-309 | and write it back, leaving the rest of the target alone |
| BlockLayout.NormalizeUndoesByteOrder | crates/around-core/src/audio_buffer.rs:233-248 | A block encoded in either byte order and normalized is the native encoding, in either layout |
| BlockLayout.NormalizeAnswers | crates/around-core/src/audio_buffer.rs:233-248 | Native and one-byte samples are left alone whatever their length; others are refused when not whole |
| BlockLayout.NormalizedByte | crates/around-core/src/audio_buffer.rs:233-248 | and otherwise each is reversed where it stands |
| BlockLayout.NormalizeByteOrder | crates/around-core/src/audio_buffer.rs:233-248 | Samples are reversed in place; an unaligned length is refused with nothing changed |
| OutputPlan.PlanOutputLoop | crates/around-engine/src/output_plan.rs:288-356 | The nested loops updating `best` keep the first least of all plans in loop order, or the first error |
| OutputPlan.LossNeverSaturates | crates/around-engine/src/output_plan.rs:205-250 | Neither the narrowing nor the saturating additions ever saturate, for any two formats |
| OutputPlan.Validate | crates/around-engine/src/output_plan.rs:123-148 | The validating loops accept exactly the valid snapshots |
| OutputPlan.Candidates | crates/around-engine/src/output_plan.rs:44-59 | The pushed vector holds, once each and nothing else, the rates of the mode's range among source, requested, default, lowest and highest: at most five |
| PlanOrder.CompareTransitive | crates/around-engine/src/output_plan.rs:359-380 | The lexicographic order is transitive, strictly where either step is strict |
| PlanOrder.CompareFlip | crates/around-engine/src/output_plan.rs:359-380 | and antisymmetric |
| PlanLaws.PlansExactlyWhen | crates/around-engine/src/output_plan.rs:288-356 | Ok exactly when the snapshot is valid, preferences exist, some preference matches some mode of some device, and every matched mode can be named |
| PlanLaws.PlanIsLeast | crates/around-engine/src/output_plan.rs:335-380 | The plan is a candidate and no candidate compares below it |
| PlanLaws.PlanIsUniqueLeast | crates/around-engine/src/output_plan.rs:335-380 | With distinct mode ids every other candidate is strictly above it |
| PlanLaws.ModeOrderIsIrrelevant | crates/around-engine/src/output_plan.rs:288-380 | Reordering modes inside devices does not change the plan |
| PlanLaws.FiveRatesLoseNothing | crates/around-engine/src/output_plan.rs:44-59 | No rate anywhere in the range of any matched mode at the winning preference and priority has lower total loss than the plan |
| PlanLaws.AtMostFiveRates | crates/around-engine/src/output_plan.rs:44-59 | At most five rates are tried per mode, all different |
| PlanChoice.PlanSuits | crates/around-engine/src/output_plan.rs:288-356 | The plan is of a device and mode that are what its preference asks for, at a rate offered, in that mode's format, and no earlier preference is suited by any device and mode |
| PlanChoice.Cascade | crates/around-engine/src/output_plan.rs:359-380 | Among all candidates the plan is first by preference, priority, loss, quality, default, rate, device and mode, each deciding only where all before tie |
| PlanChoice.FirstOfTies | crates/around-engine/src/output_plan.rs:346-351 | Of plans that tie in everything the first met stays |
| PlanChoice.LossUnits | crates/around-engine/src/output_plan.rs:216-250 | A dropped channel costs 80, an added one 5, a bit of width 1, another kind of encoding 20, layout and byte order 1 |
| PlanChoice.EncodingLosses | crates/around-engine/src/output_plan.rs:241-250 | The losses between eight pairs of encodings |
| PlanChoice.CostsNoMore | crates/around-engine/src/output_plan.rs:288-380 | At the winning preference and priority no suiting mode costs less at any rate it offers |
| PlanChoice.ChannelsKept | crates/around-engine/src/output_plan.rs:205-380 | If a mode that suits, at the winning priority, has the source's rate and encoding and up to 15 more channels, the plan has no fewer channels than the source |
| PlanChoice.SourceFormatWins | crates/around-engine/src/output_plan.rs:205-380 | Where such a mode has the source's format, the plan has its channels and encoding and a rate within rounding of it |
| PlanChoice.KindKept | crates/around-engine/src/output_plan.rs:205-380 | Where such a mode's encoding is of the source's kind and less than 20 bits away, so is the plan's, and no further |
| PlanChoice.UpRatherThanDown | crates/around-engine/src/output_plan.rs:205-380 | Where a higher rate is offered, the plan is below the source by at most a tenth of the way up |
| PlanChoice.MonoOrMore | crates/around-engine/src/output_plan.rs:205-380 | For a stereo source four channels are planned rather than one, and one rather than nineteen |
| PlanChoice.PlanErrors | crates/around-engine/src/output_plan.rs:288-356 | Which error is reported: of the snapshot, of empty preferences, that nothing matches, or of a matching mode with too many channels |
| OutputSession.OwnPlanAcceptedExactly | crates/around-engine/src/output_session.rs:251-284 | The binder accepts a plan of its own snapshot exactly when the first mode with that id offers the planned format |
| OutputSession.OwnPlanAccepted | crates/around-engine/src/output_session.rs:251-284 | which distinct mode ids guarantee |
| OutputSession.OwnPlanRefused | crates/around-engine/src/output_session.rs:251-284 | A concrete valid snapshot with two modes of one id whose own plan the binder refuses |
| OutputSession.MemoryOutputAdapter.Bind | crates/around-engine/src/output_session.rs:251-284 | The checks in order with their errors, and a fresh open binding of the planned device and format |
| OutputSession.MemoryOutputBinding.Write | crates/around-engine/src/output_session.rs:315-330 | Appends exactly one whole-frame block of the bound format, or nothing |
| OutputSession.NewBlock | crates/around-core/src/audio_buffer.rs:68-79 | A block is accepted exactly when its length is the frame count times the frame size |
| OutputSession.OutputSession.Open | crates/around-engine/src/output_session.rs:90-114 | Discovery, planning, chain and binding in order; the session starts with all three formats in agreement and an empty history |
| OutputSession.OutputSession.Submit | crates/around-engine/src/output_session.rs:116-137 | The new session value, region and answer for every status and outcome: success appends the converted block, every failure nothing, and a write lost after conversion has still advanced the history |
| OutputSession.OutputSession.SubmitWorkspace | crates/around-engine/src/output_session.rs:139-159 | The same from the decode region |
| OutputSession.OutputSession.Rebind | crates/around-engine/src/output_session.rs:179-195 | Failure changes nothing; success closes the old binding, installs plan and format and empties the resampler history |
| OutputSession.StepDelivers | crates/around-engine/src/output_session.rs:116-195 | A successful submit happens on an active binding and appends one block of whole frames of the format then bound; every other step appends nothing |
| OutputSession.RunDelivers | crates/around-engine/src/output_session.rs:90-195 | In every run of submits, rebinds and device events plan and chain agree at every point, and, if the adapter records rather than discards, the device got exactly the blocks of the successful submits, each whole frames of the format in force at its step |
| OutputSession.RunSession | crates/around-engine/src/output_session.rs:90-195 | Any such run of the session object computes that run of its value, answer by answer, and keeps chain, plan and binding in agreement |
| SessionLaws.RefusedSubmissions | crates/around-engine/src/output_session.rs:116-126 | A closed session refuses first, then a lost device, with nothing changed |
| SessionLaws.BlockRefusals | crates/around-core/src/audio_buffer.rs:68-79 | A block is refused for a size that cannot be told, or for the two lengths that differ |
| SessionLaws.OpenSubmissions | crates/around-engine/src/output_session.rs:116-137 | On an open device: a wrong length or a failed conversion is reported and writes nothing, a converted block is written exactly or lost with the device |
| SessionLaws.WorkspaceRefusals | crates/around-engine/src/output_session.rs:139-159 | The order of a workspace submission's refusals, with their sizes |
| SessionLaws.RebindAnswers | crates/around-engine/src/output_session.rs:179-195 | At which step a rebind fails, changing nothing, and what it leaves when it succeeds |
| SessionLaws.BindAnswers | crates/around-engine/src/output_session.rs:251-284 | The binder's answer from revision, first device and first mode of the planned names, rate, channels and format |
| SessionLaws.StepEffects | crates/around-engine/src/output_session.rs:116-195 | Each step of a run does what it names and nothing else |
| DecodeScript.RunAccounted | crates/around-engine/src/pipeline.rs:450-559 | At every point of every run: frames and published position follow the log, errors are those since the last delivery, and a failure has stopped the loop |
| DecodeScript.FramesConserved | crates/around-engine/src/pipeline.rs:490-545 | The frame count is the last successful seek's answer plus the frames of the blocks delivered since |
| DecodeScript.DecodeErrorExactly | crates/around-engine/src/pipeline.rs:506-558 | A decode error ends the run exactly on the third failed read with no delivered block between, whatever seeks, pauses, lost blocks and rebinds occur |
| DecodeScript.StoppedExactlyWithoutFailure | crates/around-engine/src/pipeline.rs:561-567 | The final status is Stopped exactly when no error is returned |
| DecodeScript.DeviceLossEndsStopped | crates/around-engine/src/pipeline.rs:455-487 | A device loss without reconnection publishes Error, ends the run without an error, and leaves the status Stopped |
| DecodeEnds.EndsExactly | crates/around-engine/src/pipeline.rs:449-559 | A turn is the last exactly when cancelled, on a device lost and not reconnected, or, unless paused, at the end of the stream, on a block refused for good, or on the third failed read |
| DecodeEnds.FailsExactly | crates/around-engine/src/pipeline.rs:455-559 | Which failure a turn ends with: the rebind's, the output's, the codec's, or none |
| DecodeEnds.TurnLogged | crates/around-engine/src/pipeline.rs:449-559 | A turn that reads logs its reconnection, each seek with its answer, and its read, in this order; a paused or ending one leaves seeks and reads alone |
| DecodeEnds.TurnPublishes | crates/around-engine/src/pipeline.rs:455-559 | The published device flag and status after every kind of turn |
| DecodeEnds.SeekAfterControl | crates/around-engine/src/pipeline.rs:481-505 | In a turn with both, a successful seek has the last word over the owner's control |
| DecodeEnds.EndOfStream | crates/around-engine/src/pipeline.rs:546-567 | A turn that reads nothing is the last of its run: no error, Stopped, and no event after it |
| DecodeEnds.CancelledAtOnce | crates/around-engine/src/pipeline.rs:450-453 | A cancelled run ends at once with no event, no error, and Stopped |
| DecodeEnds.PausedStays | crates/around-engine/src/pipeline.rs:483-488 | A paused turn keeps frames, position and errors |
| DecodeEnds.SeeksLand | crates/around-engine/src/pipeline.rs:490-505 | The last seek that succeeds places the playback and resumes it; refused ones change nothing |
| DecodeEnds.SeekLandsThere | crates/around-engine/src/pipeline.rs:490-505 | The published position of a seek is at most the one asked for and less than a millisecond and a frame below it |
| DecodeEnds.MillisecondsOf | crates/around-engine/src/pipeline.rs:497-545 | Published positions are frames over the rate in milliseconds, rounded down |
| DecodeEnds.RequestedFrameOf | crates/around-engine/src/pipeline.rs:490-494 | The requested frame is the position times the rate, rounded down, or the largest number of 64 bits |
| DecodeLoop.RunStream | crates/around-engine/src/pipeline.rs:398-567 | The loop over a real session and its workspaces computes the run of the script: playback, log and the session's whole value, for any filters and any codec |
| DecodeRun.RunIsFaithful | crates/around-engine/src/pipeline.rs:439-559 | At every point of every run with per-sample, length-preserving filters and a codec that reports what it filled: the bytes written since the last rebind are the one-stream conversion of the samples delivered since, each delivery is one block, and a submission fails the run only for a lost device with reconnecting off |
| DecodeRun.AnswersExactly | crates/around-engine/src/pipeline.rs:455-540 | Every answer of the session from the script: rebinds answer as replanning against the binder does, a lost device refuses, and with preserving filters an honest read that is reached is delivered exactly when the device is there before and during the write |
| DecodeRun.RunKeeps | crates/around-engine/src/pipeline.rs:439-531 | Through every rebind the workspace stays large enough for the formats in force, the source and filters stay, and what was written stays written |
| DecodeRun.DeliveryIsFaithful | crates/around-engine/src/pipeline.rs:506-545 | Submitting one read of any size continues the converted stream where the last left it, and cannot fail on a sized workspace |
| DecodeLoop.SizeWorkspace | crates/around-engine/src/pipeline.rs:439-445 | The allocated workspace is the zeroed one of the sizes required for 4096-frame reads of the current formats |
| DecodeRun.BytesFit | crates/around-engine/src/filter_chain.rs:229-238 | The byte size for 4096-frame reads never leaves the address range, for any formats |
| DecodeLoop.Reconnect | crates/around-engine/src/pipeline.rs:464-478 | Succeeds exactly when replanning and binding do, with a fresh binding, the old one closed and a new workspace; otherwise plan, chain, binding and workspace are as they were |
| StreamLifecycle.DroppedOnceAndInOrder | crates/around-engine/src/pipeline.rs:143-156 | In every interleaving nothing is dropped twice and a reader goes only after the codec stream that reads through it |
| StreamLifecycle.NothingLeftAtTheEnd | crates/around-engine/src/pipeline.rs:303-386 | Once engine and streams are gone every codec stream and reader ever made was dropped and the counter is zero |
| StreamLifecycle.QuietCounter | crates/around-engine/src/pipeline.rs:376-377 | With no thread in flight the counter is the number of open codec streams, modulo its width |
| StreamLifecycle.TakesAllOrNothing | crates/around-engine/src/pipeline.rs:1003-1041 | Taking the three options one by one yields all of them or changes nothing; no partial loss is reachable |
| StreamLifecycle.RunsOnce | crates/around-engine/src/pipeline.rs:398-438 | Of all runs of one stream only the first obtains its resources |
| StreamLifecycle.FinishedRunLeavesNoEntry | crates/around-engine/src/pipeline.rs:566-573 | Once a run has removed its stream, no later state has an entry of that number |
| StreamLifecycle.WholeLife | crates/around-engine/src/pipeline.rs:303-580 | A stream can go the whole way from prepare to the end of the engine, leaving its two drops in order, no entry and a count of zero |
| StreamLifecycle.RunInv | crates/around-engine/src/pipeline.rs:303-580 | One owner per resource, nothing leaked, all-or-none options and the counter balance hold after every sequence of steps |
| StreamLifecycle.ActiveStream.TakeStreamResources | crates/around-engine/src/pipeline.rs:1003-1041 | The successive takes leave exactly the described options and result |
| StreamLifecycle.TakePartial | crates/around-engine/src/pipeline.rs:1003-1041 | On an entry with missing options the take loses those before the missing one, which its error names |
| StreamLifecycle.DropCounts | crates/around-engine/src/pipeline.rs:143-156 | Only an entry with its codec stream counts down, wrapping at zero |
| StreamLifecycle.ActiveStream.Drop | crates/around-engine/src/pipeline.rs:143-156 | Drops the codec stream, then the reader, and decrements only with a codec stream |
| OutputRing.RingDelivers | crates/around-engine/src/cpal_adapter.rs:180-280 | In every interleaving the heard bytes are a prefix of the submitted ones, the rest being ring and pending write; the ring holds whole frames and silence keeps frame boundaries |
| OutputRing.InvRun | crates/around-engine/src/cpal_adapter.rs:180-280 | The ring invariant holds after every sequence of events |
| OutputRing.CpalOutput.AudioCallback | crates/around-engine/src/cpal_adapter.rs:194-201 | The callback plays what the ring has, in order, then silence |
| RingLaws.CallbackHears | crates/around-engine/src/cpal_adapter.rs:194-201 | A callback for n bytes hears n: the ring's oldest in order, then silence, and silence only once the ring is empty |
| RingLaws.OneBlockFits | crates/around-engine/src/cpal_adapter.rs:180-186 | A block enters an empty ring at once exactly up to 16384 frames |
| OutputRing.CpalOutput.Write | crates/around-engine/src/cpal_adapter.rs:256-280 | After the checks, which refuse with nothing changed, a write is a protocol run that submits the block, meets the callbacks and errors of the other side in order, wherever between its steps they fall, and otherwise only pushes or gives up. It is written exactly when the pushes before the first one that moves nothing on a lost device find room for it, given up there otherwise, and still waiting if there is none |
| OutputRing.PullingDeviceGetsAll | crates/around-engine/src/cpal_adapter.rs:268-278 | A device that takes something before every push gets the whole block, whatever errors it reports |
| RingLaws.GiveUpNeedsAFullRing | crates/around-engine/src/cpal_adapter.rs:268-278 | A writer may give up exactly when its push found the ring full and the device is lost by then |
| RingLaws.Refusals | crates/around-engine/src/cpal_adapter.rs:256-266 | A closed binding, then a lost device, then a block of another format or not of whole frames is refused |
| OutputRing.FillSilence | crates/around-engine/src/cpal_adapter.rs:314-334 | Fills whole samples, then the remainder, with the silent pattern |
| RingLaws.SilenceRepeats | crates/around-engine/src/cpal_adapter.rs:314-334 | Every whole sample of silence is the silent one |
| RingLaws.SilentSamples | crates/around-engine/src/cpal_adapter.rs:314-334 | That is zero bytes, and for unsigned encodings on a little-endian build ends in 80 |
| OutputRing.SilenceIsZeroSample | crates/around-engine/src/cpal_adapter.rs:314-334 | Where the float bytes of 0.0 are zeros, the silent pattern is the native encoding of 0.0 exactly on little-endian builds or for encodings that are not unsigned |
| VarintFraming.VarintRoundTrip | crates/around-engine/src/ipc/codec_proto.rs:169-197 | Decoding inverts encoding for every u64 and any trailing bytes, consuming one to ten bytes |
| VarintFraming.VarintLength | crates/around-engine/src/ipc/codec_proto.rs:169-181 | k bytes suffice exactly for values below 128^k |
| VarintFraming.VarintIsShortest | crates/around-engine/src/ipc/codec_proto.rs:169-197 | No byte string decoding to a value is shorter than its encoding |
| VarintFraming.VarintByte | crates/around-engine/src/ipc/codec_proto.rs:169-181 | Byte k holds bits 7k to 7k+6 of the value and has its top bit exactly if another follows |
| VarintFraming.VarintExamples | crates/around-engine/src/ipc/codec_proto.rs:169-181 | 1, 150 and 300 in bytes, as the specification has them |
| VarintFraming.NoEleventhByte | crates/around-engine/src/ipc/codec_proto.rs:183-197 | Ten bytes that announce another do not decode |
| VarintFraming.EncodeVarint | crates/around-engine/src/ipc/codec_proto.rs:169-181 | The shifting loop appends that encoding |
| VarintFraming.DecodeVarint | crates/around-engine/src/ipc/codec_proto.rs:183-197 | The accumulating loop computes the decoding, with the tenth byte cut to its low bit |
| VarintFraming.Reader.ReadMessage | crates/around-engine/src/ipc/codec_proto.rs:210-250 | The byte-at-a-time reader consumes exactly the prefix and its message, or stops at the described error |
| VarintFraming.FrameRoundTrip | crates/around-engine/src/ipc/codec_proto.rs:264-280 | A written frame reads back as its message if and only if that is at most 64 MiB |
| VarintFraming.CutFrame | crates/around-engine/src/ipc/codec_proto.rs:210-250 | A frame cut anywhere gives the end-of-input error at its end, and no message |
| VarintFraming.CutStream | crates/around-engine/src/ipc/codec_proto.rs:210-250 | A stream of frames cut anywhere yields the messages of the complete frames, then that error |
| VarintFraming.EndlessPrefix | crates/around-engine/src/ipc/codec_proto.rs:210-232 | Ten leading bytes that announce another are refused, after exactly ten |
| VarintFraming.FramesSplitBack | crates/around-engine/src/ipc/codec_proto.rs:210-280 | Any concatenation of frames splits back into the same messages and remainder |
| VarintFraming.FramesSelfDelimiting | crates/around-engine/src/ipc/codec_proto.rs:264-280 | Equal byte strings starting with frames start with the same frame, of any size |
| Registers.VecRegister.Push | crates/around-extensions-macros/src/lib.rs:178-188 | Appends one entry with its metadata address |
| Registers.VecRegister.AllEntries | crates/around-extensions-macros/src/lib.rs:202-210 | Lists every entry's object in registration order |
| Registers.VecRegister.RemoveByMeta | crates/around-extensions-macros/src/lib.rs:239-261 | Keeps exactly the other extensions' entries in order and drops each removed one once |
| Registers.OnlyOfWithout | crates/around-extensions-macros/src/lib.rs:239-261 | Removal leaves every other extension's entries as they were |
| ScanLaws.ScanIndexes | crates/around-extensions/src/lib.rs:621-690 | A scan keeps what is indexed and adds, under every other name, the first library bearing it in the directories up to the first unreadable one; it succeeds exactly when all can be read |
| ScanLaws.FreshScanFinds | crates/around-extensions/src/lib.rs:699-733 | A fresh scan finds the first library of the name in the first search path that holds one, passing over unreadable directories |
| ScanLaws.ScanChangesNoLoad | crates/around-extensions/src/lib.rs:621-857 | The index is only a cache: over one disk, after a complete scan every load answers and does what it would with the search paths alone, the index apart |
| LoadLaws.LoadLoads | crates/around-extensions/src/lib.rs:755-987 | Every load keeps the framework invariant and all that was loaded, restores the loading set on every exit, and initialises each new extension once, after its dependencies, in every outcome |
| LoadLaws.LoadSucceedsExactly | crates/around-extensions/src/lib.rs:755-857 | With the required slots registered, load succeeds if and only if everything reachable and not loaded resolves, has the right version, opens and initialises, and the dependencies are acyclic |
| LoadLaws.LoadedWasLoadable | crates/around-extensions/src/lib.rs:755-857 | Success implies that without any assumption on slots |
| AnswerLaws.LoadRefusals | crates/around-extensions/src/lib.rs:755-827 | The refusals of a load in their order: circular, not found, another version, the first absent slot |
| AnswerLaws.DependencyRefusals | crates/around-extensions/src/lib.rs:829-831 | The first dependency that fails gives its error, and none after it is tried |
| AnswerLaws.DependencyStops | crates/around-extensions/src/lib.rs:829-857 | A load answers what its failing dependency does, and otherwise what its own installation does |
| AnswerLaws.InstallRefusals | crates/around-extensions/src/lib.rs:833-857 | Failing to open changes nothing; failing to initialise reports the code and registers nothing |
| UnloadLaws.LoadRegistersOnce | crates/around-extensions/src/lib.rs:859-957 | A successful load has loaded the library the name resolved to, and leaves in every register, owned or not, exactly what that library creates for it, once |
| UnloadLaws.InstallRegistersOnce | crates/around-extensions/src/lib.rs:859-957 | after the entries already there, and changes no other extension's entries outside the slots it defines |
| SymbolLaws.PlainSymbol | crates/around-extensions/src/lib.rs:930-936 | The create symbol of a name without a path is its small-lettered characters, one by one, and "_create" |
| SymbolLaws.JoinedName | crates/around-extensions/src/lib.rs:930-936 | A "::" between two parts becomes one "_" |
| SymbolLaws.CodecSymbolIs | crates/around-extensions/src/lib.rs:930-936 | The codec slot's symbol, spelled out |
| SymbolLaws.CodecLoads | crates/around-extensions/src/lib.rs:755-987 | From a concrete disk whose library exports that symbol, a load succeeds and the codec register holds its objects in order |
| LoadLaws.InstallWellFormed | crates/around-extensions/src/lib.rs:833-972 | Installing keeps the invariant although the new metadata may get a reused address |
| Extensions.ClaimShrinks | crates/around-extensions/src/lib.rs:775-831 | Each nested load has fewer names left to claim, so load terminates for every dependency graph |
| Framework.Framework.LoadExtension | crates/around-extensions/src/lib.rs:755-987 | The recursive method over mutable maps computes the load function, releasing its claim on every path |
| Framework.Framework.Claim | crates/around-extensions/src/lib.rs:775-827 | Resolution through index or fresh scan, then version and slot checks, in that order |
| Framework.Framework.ScanPaths | crates/around-extensions/src/lib.rs:621-690 | The loops over directories and files compute the scan, stopping with an error at the first unreadable directory |
| Framework.Framework.FreshScanInto | crates/around-extensions/src/lib.rs:699-733 | The nested loops over the stored search paths index the first library bearing the name, passing over unreadable directories |
| Framework.Framework.InstallLibrary | crates/around-extensions/src/lib.rs:833-972 | Open, initialise, attach owned slots, poll the others and record, with the errors of each step |
| Framework.Framework.AttachOwned | crates/around-extensions/src/lib.rs:859-911 | Each defined slot is attached and filled by polling until null |
| Framework.Framework.PollOthers | crates/around-extensions/src/lib.rs:913-957 | Every slot of another owner gets the created entries, in any order of slots |
| Framework.Framework.UnloadExtension | crates/around-extensions/src/lib.rs:992-1071 | The loops over maps compute unload |
| Framework.Framework.Commit | crates/around-extensions/src/lib.rs:1229-1423 | The commit, found by metadata address, computes the reload function |
| Framework.Framework.Prepare | crates/around-extensions/src/lib.rs:1108-1213 | The prepared version's entries are polled aside, under a held address |
| Framework.Framework.ReloadExtension | crates/around-extensions/src/lib.rs:1428-1443 | Resolves the old address by name, prepares and commits |
| Framework.Framework.AttachRegister | crates/around-extensions/src/lib.rs:512-531 | Adds a host slot with an empty register and keeps the invariant |
| FrameworkRuns.EveryRunSound | crates/around-extensions/src/lib.rs:482-1443 | In every run of scans, host slots, loads, unloads, preparations, commits any time later and reloads, over a disk that may change before each: the loaded set is closed under dependencies, no register entry carries the address of an extension that is not loaded, and each pending version holds an address of its own; only a version that gets in must find its dependencies loaded |
| FrameworkRuns.RunEntersTwice | crates/around-extensions/src/lib.rs:621-1423 | A run of scan, load, prepare and commit from the empty framework that leaves one object registered twice |
| UnloadLaws.UnloadKeepsWellFormed | crates/around-extensions/src/lib.rs:992-1036 | Unload is refused exactly for unloaded names and remaining dependents, changing nothing, and otherwise keeps the invariant |
| AnswerLaws.UnloadRefusals | crates/around-extensions/src/lib.rs:992-1010 | Remaining dependents are reported before an unloaded name |
| UnloadLaws.UnloadRemovesExactly | crates/around-extensions/src/lib.rs:1005-1036 | Exactly the extension's slots and entries go; every other extension's entries stay in order |
| UnloadLaws.LoadThenUnload | crates/around-extensions/src/lib.rs:859-1036 | With loaded dependencies and new slot names, load then unload succeeds and restores every register, the slot map and the loaded maps |
| UnloadLaws.PrepareKeeps | crates/around-extensions/src/lib.rs:1108-1213 | Preparing leaves all maps and registers unchanged and holds an address nobody else has |
| UnloadLaws.RejectedCommitKeeps | crates/around-extensions/src/lib.rs:1234-1262 | A commit is refused exactly for an unknown address or remaining dependents, and then changes nothing but giving the pending version up |
| AnswerLaws.CommitRefusals | crates/around-extensions/src/lib.rs:1234-1262 | Which refusal: an address nobody has, or a name somebody depends on |
| AnswerLaws.PrepareAnswers | crates/around-extensions/src/lib.rs:1108-1213 | Preparing fails to open, to find metadata or to initialise, and otherwise holds the version of the disk with what it creates for every slot its own name does not own |
| UnloadLaws.ReloadReplacesExactly | crates/around-extensions/src/lib.rs:1229-1423 | From any later well-formed world, committing a held version leaves no entry of the old one and every other extension's entries in slots it does not redefine, and registers the new one once per slot exactly when each slot gets its entries on one way |
| UnloadLaws.ReloadedSlot | crates/around-extensions/src/lib.rs:1277-1399 | Slot by slot, for any pending version: which slots survive or appear, their owner, and their whole content |
| UnloadLaws.RegisteredOnceExactly | crates/around-extensions/src/lib.rs:1108-1399 | For a version prepared in one world and committed in any later one, that is so if and only if the slots it defines were not polled at preparation and all others that survive were |
| UnloadLaws.OwnNameRegistersOnce | crates/around-extensions/src/lib.rs:1229-1423 | Committed at once under its own name a version that takes no other's slot is always registered once |
| UnloadLaws.EnteredTwice | crates/around-extensions/src/lib.rs:1108-1399 | After a scan and a load from a concrete disk, a version of another name is entered twice in the slot it redefines |
| UnloadLaws.ReloadKeepsWellFormedExactly | crates/around-extensions/src/lib.rs:1401-1407 | The invariant survives a reload if and only if the new dependencies are loaded |

## Left out

- Floating-point rounding, NaN and infinities: samples are reals and f32/f64 output bytes come from an arbitrary function; the 32-bit WAV conversion rounds through f32 and has no round-trip claim.
- Machine overflow outside the checked multiplications: frame totals and positions in milliseconds are unbounded, stream ids never wrap, and resampler positions are exact.
- Stateful filters: a filter rewrites each sample as a function of the slice it sees, and the block-independence theorems need per-sample, length-preserving filters such as Volume.
- Filter ABI bridge, format scoring and filter metadata.
- The asynchronous decode loop, which records the requested frame instead of the codec's answer (crates/around-engine/src/pipeline.rs:652), timing, sleeps and cancellation tokens; a run is a script of what each turn finds.
- DecodeRun.RunIsFaithful: for the in-memory adapter in its recording mode, per-sample length-preserving filters and a codec that reports what it filled.
- ChainLaws.EachCallContinuesTheStream: for per-sample length-preserving filters only; what other filters do depends on the block they see.
- ChainLaws.BytesIndependentOfBlocks: for interleaved output only, since planar blocks do not join into a planar stream.
- Closing a CPAL binding can fail during a rebind, which the in-memory adapter cannot.
- CPAL device enumeration and configuration matching, libloading, stabby and ringbuf internals; a ring is a bounded first-in first-out byte queue.
- OutputRing.CpalOutput.Write: what the other side does is given as a finite list of rounds, one per push, so a write may end still waiting; pushes, pops and looks at the flag are atomic.
- StreamLifecycle.RunInv: the stream map and counter are values stepped by events, not heap objects; threads that panic are not modelled.
- The crash guard, panicking push functions and therefore the pending-entry buffer; trust counters, lifecycle hooks, re-entrant callbacks and lock order.
- Registers inside the framework are values in the slot map; every attach starts from an empty register, and a register dropped with its owner's slot is gone.
- Create symbols lower-case ASCII letters only; which dependent an unload error names, and around_deinit.
- UnloadLaws.LoadThenUnload: needs slot names that are not taken, because attaching over an existing slot replaces its register.
- FrameworkRuns.EveryRunSound: assumes that a reload that succeeds finds its new dependencies loaded, which the code does not check.
- WAV chunk parsing and positioning, and the read loop around the sample decoder.
- Protocol message bodies, IPC transports, command line, configuration, error texts, sources and platform stubs.
- The file-name filter of scans, and directory entries that cannot be read; a directory is the list of its library files.

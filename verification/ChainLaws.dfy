/** What a whole stream through the filter chain keeps: room is always enough,
    and block boundaries leave no trace in the bytes. */
module ChainLaws {
  import opened Arith
  import opened Pcm
  import opened Resampler
  import opened SampleCodec
  import opened BlockLayout
  import opened FilterChain

  // --------------------------------------------------------------- sizing

  /** A chain fed by a codec: normalized interleaved f32. */
  predicate CodecFed(ch: Chain) {
    ch.Valid() && ch.decodeSpec.encoding == F32 && ch.decodeSpec.interleave == Interleaved
  }

  lemma RoomGrows(ch: Chain, n: nat, m: nat)
    requires ch.Valid() && n <= m
    ensures ch.RoomFor(n) <= ch.RoomFor(m)
  {
    MulMonotone(n, m, ch.outputSpec.sampleRate);
    CeilDivMonotone(n * ch.outputSpec.sampleRate, m * ch.outputSpec.sampleRate, ch.decodeSpec.sampleRate);
  }

  /** At equal rates a block needs no more room than is reserved. */
  lemma RoomCoversInput(ch: Chain, n: nat)
    requires ch.Valid() && ch.SameRate()
    ensures n + 2 == ch.RoomFor(n)
  {
    CeilDivUnique(n * ch.outputSpec.sampleRate, ch.decodeSpec.sampleRate, n);
  }

  /** Frames in a block of whole frames, and their share of the maximum. */
  lemma FramesOfBlock(ch: Chain, frames: nat, maxSamples: nat)
    requires ch.Valid() && frames * ch.decodeSpec.channels <= maxSamples
    ensures (frames * ch.decodeSpec.channels) / ch.decodeSpec.channels == frames
    ensures frames <= maxSamples / ch.decodeSpec.channels
  {
    var channels := ch.decodeSpec.channels;
    DivModUnique(frames * channels, channels, frames, 0);
    var most := maxSamples / channels;
    assert maxSamples == most * channels + maxSamples % channels;
    assert (most + 1) * channels == most * channels + channels;
    if most < frames {
      MulMonotone(most + 1, frames, channels);
    }
  }

  /** Scratch room in frames, from room in samples. */
  lemma RoomInFrames(room: nat, channels: nat, frames: nat)
    requires 0 < channels && frames * channels <= room
    ensures frames <= room / channels
  {
    assert room == (room / channels) * channels + room % channels;
    assert (room / channels + 1) * channels == (room / channels) * channels + channels;
    if room / channels < frames {
      MulMonotone(room / channels + 1, frames, channels);
    }
  }

  /** Converting n input frames yields at most RoomFor(n) - 2 output frames, at
      any resampler state. */
  lemma ConvertedCount(ch: Chain, input: seq<Frame>, capacity: nat, channels: U8)
    requires ch.Valid() && channels <= MAX_CHANNELS && Framed(input, ch.ConfigFor(channels).inChannels)
    requires !ch.SameRate()
    ensures |Advance(ch.history, input, capacity, ch.ConfigFor(channels)).1| + 2 <= ch.RoomFor(|input|)
  {
    var c := ch.ConfigFor(channels);
    if |input| > 0 {
      var st := ch.history.(previous := ch.history.previous[..c.inChannels]);
      PendingBound(st, input, c);
      ConvertCount(st, input, capacity, c);
    }
  }

  /** Output frames of the next block of that many input frames. */
  function Due(ch: Chain, frames: nat): nat
    requires ch.Valid()
  {
    if ch.SameRate() then frames
    else if frames == 0 then 0
    else Pending(ch.history.position, frames + (if ch.history.hasPrevious then 1 else 0),
                 ch.ConfigFor(ch.decodeSpec.channels))
  }

  /** At any resampler state the reserved room is two frames more than a block needs. */
  lemma DueInRoom(ch: Chain, frames: nat)
    requires ch.Valid()
    ensures Due(ch, frames) + 2 <= ch.RoomFor(frames)
  {
    if ch.SameRate() {
      RoomCoversInput(ch, frames);
    } else if frames > 0 {
      PendingBound(ch.history, seq(frames, _ => []), ch.ConfigFor(ch.decodeSpec.channels));
    }
  }

  /** With room for them, resampling yields the frames due. */
  lemma AdvanceYieldsDue(ch: Chain, input: seq<Frame>, capacity: nat)
    requires CodecFed(ch) && !ch.SameRate() && Framed(input, ch.decodeSpec.channels)
    requires Due(ch, |input|) <= capacity
    ensures |Advance(ch.history, input, capacity, ch.ConfigFor(ch.decodeSpec.channels)).1| == Due(ch, |input|)
  {
    hide Convert, Pending;
    var c := ch.ConfigFor(ch.decodeSpec.channels);
    if |input| > 0 {
      ConvertCount(ch.history.(previous := ch.history.previous[..c.inChannels]), input, capacity, c);
    }
  }

  /** The conversion stage runs exactly when the scratch region holds the frames it
      asks for, and yields the frames due. */
  lemma ConvertedExactly(ch: Chain, samples: seq<real>, frames: nat, room: nat)
    requires CodecFed(ch) && |samples| == frames * ch.decodeSpec.channels
    ensures var r := ch.Converted(samples, ch.decodeSpec.channels, room);
            && (r.Ok? <==> ch.RequiredFrames(frames) * ch.OutChannels() <= room)
            && (r.Ok? ==> |r.value.1| == Due(ch, frames))
  {
    FramesOfBlock(ch, frames, |samples|);
    ConvertedCases(ch, samples, ch.decodeSpec.channels, room);
    RoomInWholeFrames(room, ch.OutChannels(), ch.RequiredFrames(frames));
    DueInRoom(ch, frames);
    hide FrameAt, Advance, MappedFrame, Chain.RoomFor, Chain.Converted;
    if !ch.SameRate() && ch.RequiredFrames(frames) <= room / ch.OutChannels() {
      AdvanceYieldsDue(ch, FramesOf(samples, ch.decodeSpec.channels), room / ch.OutChannels());
    }
  }

  lemma RoomInWholeFrames(room: nat, channels: nat, frames: nat)
    requires 0 < channels
    ensures frames <= room / channels <==> frames * channels <= room
  {
    if frames <= room / channels {
      MulMonotone(frames, room / channels, channels);
      assert room == (room / channels) * channels + room % channels;
    } else if frames * channels <= room {
      RoomInFrames(room, channels, frames);
    }
  }

  /** What preserving filters leave in the buffer for a block. */
  lemma PreparedBlock(ch: Chain, input: seq<real>, frames: nat, region: seq<real>)
    requires CodecFed(ch) && Preserving(ch.filters)
    requires |input| == frames * ch.decodeSpec.channels <= |region| && |input| <= USIZE_MAX
    ensures ch.Prepared(input, frames, region).Ok?
    ensures var stage := ch.Prepared(input, frames, region).value;
            stage.count == |input| && stage.channels == ch.decodeSpec.channels
  {
    PreservedStage(ch.filters, Stage(input + region[|input|..], |input|, ch.decodeSpec.channels));
  }

  /** Exactly when a call succeeds, region by region and at any resampler state: the
      filter region holds the block, the scratch region what the conversion asks for,
      and the output the frames then due. */
  lemma ProcessSucceedsExactly(ch: Chain, input: seq<real>, frames: nat, region: seq<real>, room: nat,
                               outputLength: nat, target: Target)
    requires CodecFed(ch) && Preserving(ch.filters)
    requires |input| == frames * ch.decodeSpec.channels <= USIZE_MAX
    ensures ch.Process(input, frames, region, room, outputLength, target).1.Ok? <==>
              && |input| <= |region|
              && ch.RequiredFrames(frames) * ch.OutChannels() <= room
              && Due(ch, frames) * ch.outputSpec.BytesPerFrame() <= Min(outputLength, USIZE_MAX)
  {
    hide Preserving, FrameAt, Flat, Convert, EncodedBlock, Due, Filtered, Chain.RequiredFrames, Chain.Converted;
    if |input| <= |region| {
      PreparedBlock(ch, input, frames, region);
      var stage := ch.Prepared(input, frames, region).value;
      ConvertedExactly(ch, stage.buffer[..stage.count], frames, room);
    }
  }

  /** What a failing call reports, stage by stage, and whether it has already moved the
      resampler: only a block that does not fit the output has. */
  lemma ProcessErrors(ch: Chain, input: seq<real>, frames: nat, region: seq<real>, room: nat, outputLength: nat,
                      target: Target)
    requires ch.Valid() && frames * ch.decodeSpec.channels <= USIZE_MAX
    ensures var (next, r) := ch.Process(input, frames, region, room, outputLength, target);
            && (!CodecFed(ch) || |input| != frames * ch.decodeSpec.channels ==>
                  r == Err(InputFormat) && next == ch.history)
            && (CodecFed(ch) && |input| == frames * ch.decodeSpec.channels && |region| < |input| ==>
                  r == Err(WorkspaceTooSmall(|input|, |region|)) && next == ch.history)
            && (CodecFed(ch) && |input| == frames * ch.decodeSpec.channels && Preserving(ch.filters)
                && |input| <= |region| ==>
                  var need, bytes := ch.RequiredFrames(frames) * ch.OutChannels(),
                                     Due(ch, frames) * ch.outputSpec.BytesPerFrame();
                  && (room < need ==> r == Err(WorkspaceTooSmall(need, room)) && next == ch.history)
                  && (need <= room && outputLength < bytes <= USIZE_MAX ==>
                        r == Err(OutputTooSmall(bytes, outputLength)))
                  && (need <= room && USIZE_MAX < bytes ==> r == Err(OutputTooSmall(USIZE_MAX, outputLength))))
  {
    hide Preserving, FrameAt, Flat, Convert, EncodedBlock, Due, Filtered, Chain.RequiredFrames, Chain.Converted;
    if CodecFed(ch) && |input| == frames * ch.decodeSpec.channels && Preserving(ch.filters) && |input| <= |region| {
      PreparedBlock(ch, input, frames, region);
      var stage := ch.Prepared(input, frames, region).value;
      ConvertedExactly(ch, stage.buffer[..stage.count], frames, room);
      ConvertedRefusal(ch, stage.buffer[..stage.count], frames, room);
    }
  }

  lemma ConvertedRefusal(ch: Chain, samples: seq<real>, frames: nat, room: nat)
    requires CodecFed(ch) && |samples| == frames * ch.decodeSpec.channels
    ensures var r := ch.Converted(samples, ch.decodeSpec.channels, room);
            r.Err? ==> r.error == WorkspaceTooSmall(ch.RequiredFrames(frames) * ch.OutChannels(), room)
  {
    FramesOfBlock(ch, frames, |samples|);
    ConvertedCases(ch, samples, ch.decodeSpec.channels, room);
  }

  /** One filter rewrites the meaningful samples, keeps the rest, and may announce another
      number of samples and, up to 32, of channels. */
  lemma OneFilterStage(f: Filter, s: Stage)
    requires s.count <= |s.buffer|
    ensures f.channelsOut.Some? && f.channelsOut.value > 32 ==> Filtered([f], s) == Err(InputFormat)
    ensures f.channelsOut.None? || f.channelsOut.value <= 32 ==>
              && Filtered([f], s).Ok?
              && var t := Filtered([f], s).value;
              && t.channels == (if f.channelsOut.Some? then f.channelsOut.value else s.channels)
              && t.count == Min(f.count(s.buffer[..s.count], s.channels), |s.buffer|)
              && |t.buffer| == |s.buffer| && t.buffer[s.count..] == s.buffer[s.count..]
              && forall i | 0 <= i < s.count :: t.buffer[i] == f.sample(s.buffer[..s.count], s.channels, i)
  {
    assert [f][1..] == [];
  }

  /** Main sizing theorem: a workspace sized for maxSamples converts and encodes
      every block of whole frames up to that size, whatever the resampler holds. */
  lemma SizedNeverTooSmall(ch: Chain, maxSamples: nat, input: seq<real>, frames: nat, region: seq<real>,
                           room: nat, outputLength: nat, target: Target)
    requires CodecFed(ch) && Preserving(ch.filters)
    requires |input| == frames * ch.decodeSpec.channels <= maxSamples && |input| <= USIZE_MAX
    requires Sized(ch, maxSamples, |region|, room, outputLength)
    ensures ch.Process(input, frames, region, room, outputLength, target).1.Ok?
  {
    hide Chain.Process, Preserving, Due, SampleSpec.BytesPerFrame, Chain.RoomFor;
    var maxFrames := maxSamples / ch.decodeSpec.channels;
    ProcessSucceedsExactly(ch, input, frames, region, room, outputLength, target);
    FramesOfBlock(ch, frames, maxSamples);
    RoomGrows(ch, frames, maxFrames);
    DueInRoom(ch, frames);
    if ch.SameRate() {
      RoomCoversInput(ch, frames);
    }
    MulMonotone(ch.RequiredFrames(frames), ch.RoomFor(maxFrames), ch.OutChannels());
    MulMonotone(Due(ch, frames), ch.RoomFor(maxFrames), ch.outputSpec.BytesPerFrame());
  }

  /** How tight the sizes are. With resampling, a workspace whose filter and scratch
      regions have one length takes a block of the whole maximum exactly when that
      length is the required one or more; the required output has room for two frames
      more than any block produces. */
  lemma SizesAreTight(ch: Chain, input: seq<real>, frames: nat, region: seq<real>, outputLength: nat, target: Target)
    requires CodecFed(ch) && Preserving(ch.filters) && !ch.SameRate()
    requires |input| == frames * ch.decodeSpec.channels <= USIZE_MAX
    requires ch.Requirements(|input|).1 <= Min(outputLength + 2 * ch.outputSpec.BytesPerFrame(), USIZE_MAX)
    ensures ch.Process(input, frames, region, |region|, outputLength, target).1.Ok?
            <==> ch.Requirements(|input|).0 <= |region|
  {
    hide Chain.Process, Preserving, Due, SampleSpec.BytesPerFrame, Chain.RoomFor;
    ProcessSucceedsExactly(ch, input, frames, region, |region|, outputLength, target);
    FramesOfBlock(ch, frames, |input|);
    DueInRoom(ch, frames);
    var b := ch.outputSpec.BytesPerFrame();
    MulMonotone(Due(ch, frames) + 2, ch.RoomFor(frames), b);
    assert (Due(ch, frames) + 2) * b == Due(ch, frames) * b + 2 * b;
  }

  // ------------------------------------------------- independence of blocks

  /** Filters that treat every sample by itself, such as Volume. */
  ghost predicate Local(filters: seq<Filter>) {
    forall f | f in filters ::
      forall s: seq<real>, c: U8, i: nat | i < |s| :: f.sample(s, c, i) == f.sample([s[i]], c, 0)
  }

  /** The samples a filter list makes of a block. */
  function Through(filters: seq<Filter>, x: seq<real>, channels: U8): (y: seq<real>)
    ensures |y| == |x|
    decreases |filters|
  {
    if |filters| == 0 then x else Through(filters[1..], Applied(filters[0], x, channels), channels)
  }

  lemma {:induction false} FilteredIsThrough(filters: seq<Filter>, x: seq<real>, rest: seq<real>, channels: U8)
    requires Preserving(filters)
    ensures Filtered(filters, Stage(x + rest, |x|, channels))
         == Ok(Stage(Through(filters, x, channels) + rest, |x|, channels))
    decreases |filters|
  {
    if |filters| > 0 {
      assert filters[0] in filters;
      assert (x + rest)[..|x|] == x && (x + rest)[|x|..] == rest;
      FilteredIsThrough(filters[1..], Applied(filters[0], x, channels), rest, channels);
    }
  }

  lemma {:induction false} ThroughConcat(filters: seq<Filter>, x: seq<real>, y: seq<real>, channels: U8)
    requires Local(filters)
    ensures Through(filters, x + y, channels) == Through(filters, x, channels) + Through(filters, y, channels)
    decreases |filters|
  {
    if |filters| > 0 {
      var f := filters[0];
      assert f in filters;
      AppliedConcat(f, x, y, channels);
      ThroughConcat(filters[1..], Applied(f, x, channels), Applied(f, y, channels), channels);
    }
  }

  lemma AppliedConcat(f: Filter, x: seq<real>, y: seq<real>, channels: U8)
    requires forall s: seq<real>, c: U8, i: nat | i < |s| :: f.sample(s, c, i) == f.sample([s[i]], c, 0)
    ensures Applied(f, x + y, channels) == Applied(f, x, channels) + Applied(f, y, channels)
  {
    forall i | 0 <= i < |x + y|
      ensures Applied(f, x + y, channels)[i] == (Applied(f, x, channels) + Applied(f, y, channels))[i]
    {
      assert f.sample(x + y, channels, i) == f.sample([(x + y)[i]], channels, 0);
      if i < |x| {
        assert f.sample(x, channels, i) == f.sample([x[i]], channels, 0);
      } else {
        assert f.sample(y, channels, i - |x|) == f.sample([y[i - |x|]], channels, 0);
      }
    }
  }

  /** The history a chain holds after the frames x. */
  ghost predicate Tracks(h: State, x: seq<Frame>, c: Config) {
    c.Valid() && c.inChannels <= MAX_CHANNELS == |h.previous|
    && h.position == After(x, c).position && (h.hasPrevious <==> |x| > 0)
    && (|x| > 0 ==> h.previous[..c.inChannels] == x[|x| - 1])
  }

  lemma SameConvert(a: State, b: State, input: seq<Frame>, capacity: nat, c: Config)
    requires c.Valid() && Framed(input, c.inChannels) && |input| > 0
    requires a.position == b.position && a.hasPrevious == b.hasPrevious
    requires a.hasPrevious ==> a.previous == b.previous && |a.previous| == c.inChannels
    ensures Convert(a, input, capacity, c) == Convert(b, input, capacity, c)
  {
    hide OutputFrame, Pending;
    var x, y := Convert(a, input, capacity, c).1, Convert(b, input, capacity, c).1;
    assert |x| == |y|;
    forall p | 0 <= p < |x|
      ensures x[p] == y[p]
    {
      ConvertAt(a, input, capacity, c, p);
      ConvertAt(b, input, capacity, c, p);
      SameHistory(a, b, input, a.position + p * c.inRate, c);
    }
    assert x == y;
    assert Convert(a, input, capacity, c).0 == Convert(b, input, capacity, c).0;
  }

  /** One block moves the history along the stream and emits what became due. */
  lemma AdvanceTracks(h: State, x: seq<Frame>, y: seq<Frame>, capacity: nat, c: Config)
    requires Tracks(h, x, c) && Framed(x, c.inChannels) && Framed(y, c.inChannels) && Framed(x + y, c.inChannels)
    requires CeilDiv(|y| * c.outRate, c.inRate) <= capacity
    ensures Tracks(Advance(h, y, capacity, c).0, x + y, c)
    ensures Resampled(x, c) + Advance(h, y, capacity, c).1 == Resampled(x + y, c)
  {
    hide OutputFrame, Pending, Resampled, FramesDue;
    if |y| == 0 {
      assert x + y == x;
      assert Resampled(x, c) + [] == Resampled(x, c);
    } else {
      var st := h.(previous := h.previous[..c.inChannels]);
      SameConvert(st, After(x, c), y, capacity, c);
      BlockStep(x, y, capacity, c);
      var next := Convert(st, y, capacity, c).0;
      assert next == After(x + y, c) && |next.previous| == c.inChannels;
      assert (next.previous + h.previous[c.inChannels..])[..c.inChannels] == next.previous;
    }
  }

  /** What the chain makes of a stream as a whole: filter, then resample or, at
      equal rates, only map channels. */
  function Expected(ch: Chain, x: seq<real>): (out: seq<Frame>)
    requires CodecFed(ch)
    ensures Framed(out, ch.OutChannels())
  {
    var c := ch.ConfigFor(ch.decodeSpec.channels);
    var frames := FramesOf(Through(ch.filters, x, ch.decodeSpec.channels), c.inChannels);
    if ch.SameRate() then Mapped(frames, c) else Resampled(frames, c)
  }

  function ExpectedBytes(ch: Chain, x: seq<real>, target: Target): seq<Byte>
    requires CodecFed(ch)
  {
    EncodedBlock(Flat(Expected(ch, x), ch.OutChannels()), |Expected(ch, x)|, ch.outputSpec, target)
  }

  /** A submitted block with the workspace it was given. */
  datatype Block = Block(input: seq<real>, frames: nat, region: seq<real>, room: nat, outputLength: nat)

  predicate Submittable(ch: Chain, b: Block)
    requires CodecFed(ch)
  {
    |b.input| == b.frames * ch.decodeSpec.channels && |b.input| <= USIZE_MAX
    && Sized(ch, |b.input|, |b.region|, b.room, b.outputLength)
  }

  /** Successive process_to_output calls on one chain, successful bytes joined. */
  function Play(ch: Chain, blocks: seq<Block>, target: Target): (r: (State, seq<Byte>))
    requires ch.Valid()
    ensures |r.0.previous| == MAX_CHANNELS
    decreases |blocks|
  {
    if |blocks| == 0 then (ch.history, [])
    else
      var b := blocks[0];
      var (next, result) := ch.Process(b.input, b.frames, b.region, b.room, b.outputLength, target);
      var (last, rest) := Play(ch.(history := next), blocks[1..], target);
      (last, (if result.Ok? then result.value else []) + rest)
  }

  function JoinedInput(blocks: seq<Block>): seq<real> {
    if |blocks| == 0 then [] else blocks[0].input + JoinedInput(blocks[1..])
  }

  /** Conversion of a filtered block with enough room. */
  function Emitted(ch: Chain, x: seq<real>, room: nat): (r: (State, seq<Frame>))
    requires CodecFed(ch)
    ensures Framed(r.1, ch.OutChannels()) && |r.0.previous| == MAX_CHANNELS
  {
    var c := ch.ConfigFor(ch.decodeSpec.channels);
    var input := FramesOf(Through(ch.filters, x, ch.decodeSpec.channels), c.inChannels);
    if ch.SameRate() then (ch.history, Mapped(input, c)) else Advance(ch.history, input, room / ch.OutChannels(), c)
  }

  /** What one call on a sized workspace computes. */
  lemma ProcessBlock(ch: Chain, b: Block, target: Target)
    requires CodecFed(ch) && Preserving(ch.filters) && Submittable(ch, b)
    ensures var (next, out) := Emitted(ch, b.input, b.room);
            ch.Process(b.input, b.frames, b.region, b.room, b.outputLength, target)
            == (next, Ok(EncodedBlock(Flat(out, ch.OutChannels()), |out|, ch.outputSpec, target)))
  {
    hide Preserving, FrameAt, FramesOf, Flat, Convert, EncodedBlock, Mapped, Advance, Submittable, Sized;
    var channels := ch.decodeSpec.channels;
    assert Sized(ch, |b.input|, |b.region|, b.room, b.outputLength)
      && |b.input| == b.frames * channels <= |b.region| && |b.input| <= USIZE_MAX by {
      SubmittableFits(ch, b);
    }
    SizedNeverTooSmall(ch, |b.input|, b.input, b.frames, b.region, b.room, b.outputLength, target);
    FilteredIsThrough(ch.filters, b.input, b.region[|b.input|..], channels);
    var through := Through(ch.filters, b.input, channels);
    assert (through + b.region[|b.input|..])[..|b.input|] == through;
    ConvertedCases(ch, through, channels, b.room);
  }

  lemma SubmittableFits(ch: Chain, b: Block)
    requires CodecFed(ch) && Submittable(ch, b)
    ensures Sized(ch, |b.input|, |b.region|, b.room, b.outputLength)
    ensures |b.input| == b.frames * ch.decodeSpec.channels <= |b.region| && |b.input| <= USIZE_MAX
    ensures CeilDiv(b.frames * ch.outputSpec.sampleRate, ch.decodeSpec.sampleRate) <= b.room / ch.OutChannels()
  {
    FramesOfBlock(ch, b.frames, |b.input|);
    RoomInFrames(b.room, ch.OutChannels(), ch.RoomFor(b.frames));
  }

  lemma ByteConcat(ch: Chain, a: seq<Frame>, b: seq<Frame>, target: Target)
    requires CodecFed(ch) && ch.outputSpec.interleave == Interleaved
    requires Framed(a, ch.OutChannels()) && Framed(b, ch.OutChannels()) && Framed(a + b, ch.OutChannels())
    ensures EncodedBlock(Flat(a + b, ch.OutChannels()), |a + b|, ch.outputSpec, target)
         == EncodedBlock(Flat(a, ch.OutChannels()), |a|, ch.outputSpec, target)
          + EncodedBlock(Flat(b, ch.OutChannels()), |b|, ch.outputSpec, target)
  {
    hide Flat, Serialize;
    FlatConcat(a, b, ch.OutChannels());
    CoderFixed(ch.outputSpec, target);
    SerializeConcat(Flat(a, ch.OutChannels()), Flat(b, ch.OutChannels()), Coder(ch.outputSpec, target),
                    ch.outputSpec.BytesPerSample());
  }

  /** The chain's frames up to now, and its history, match the stream x. */
  ghost predicate Follows(ch: Chain, x: seq<real>) {
    CodecFed(ch) && |x| % ch.decodeSpec.channels == 0
    && (!ch.SameRate() ==>
        Tracks(ch.history, FramesOf(Through(ch.filters, x, ch.decodeSpec.channels), ch.decodeSpec.channels),
               ch.ConfigFor(ch.decodeSpec.channels)))
  }

  /** One more block: history and frames follow the longer stream. */
  lemma FollowBlock(ch: Chain, x: seq<real>, b: Block, target: Target)
    requires Follows(ch, x) && Preserving(ch.filters) && Local(ch.filters) && Submittable(ch, b)
    ensures var (next, out) := Emitted(ch, b.input, b.room);
            && Follows(ch.(history := next), x + b.input)
            && Expected(ch, x) + out == Expected(ch, x + b.input)
  {
    hide Preserving, Local, FrameAt, Convert, Resampled, Advance, MappedFrame, Sized, Tracks;
    var channels := ch.decodeSpec.channels;
    var c := ch.ConfigFor(channels);
    var before, block := Through(ch.filters, x, channels), Through(ch.filters, b.input, channels);
    ThroughConcat(ch.filters, x, b.input, channels);
    FramesConcat(before, block, channels);
    SubmittableFits(ch, b);
    FramesOfBlock(ch, b.frames, |b.input|);
    WholeBlocks(|x|, b.frames, channels);
    if ch.SameRate() {
      assert Mapped(FramesOf(before, channels) + FramesOf(block, channels), c)
          == Mapped(FramesOf(before, channels), c) + Mapped(FramesOf(block, channels), c);
    } else {
      AdvanceTracks(ch.history, FramesOf(before, channels), FramesOf(block, channels), b.room / ch.OutChannels(), c);
    }
  }

  lemma WholeBlocks(n: nat, frames: nat, channels: nat)
    requires 0 < channels && n % channels == 0
    ensures (n + frames * channels) % channels == 0
  {
    DivModShift(n, frames, channels);
  }

  /** One block: its bytes are what the longer stream adds. */
  lemma PlayBlock(ch: Chain, x: seq<real>, b: Block, target: Target)
    requires Follows(ch, x) && Preserving(ch.filters) && Local(ch.filters)
    requires ch.outputSpec.interleave == Interleaved && Submittable(ch, b)
    ensures var (next, result) := ch.Process(b.input, b.frames, b.region, b.room, b.outputLength, target);
            && Follows(ch.(history := next), x + b.input) && result.Ok?
            && ExpectedBytes(ch, x, target) + result.value == ExpectedBytes(ch, x + b.input, target)
  {
    hide Preserving, Local, Follows, Expected, Emitted, EncodedBlock, Flat, Sized;
    FollowedIsFed(ch, x);
    ProcessBlock(ch, b, target);
    FollowBlock(ch, x, b, target);
    ByteConcat(ch, Expected(ch, x), Emitted(ch, b.input, b.room).1, target);
  }

  lemma FollowedIsFed(ch: Chain, x: seq<real>)
    requires Follows(ch, x)
    ensures CodecFed(ch)
  {
  }

  lemma HistoryIsIrrelevant(a: Chain, history: State, x: seq<real>, target: Target)
    requires CodecFed(a) && |history.previous| == MAX_CHANNELS
    ensures ExpectedBytes(a.(history := history), x, target) == ExpectedBytes(a, x, target)
  {
    hide Resampled, Mapped, FrameAt;
    assert Expected(a.(history := history), x) == Expected(a, x);
  }

  lemma {:induction false} PlayFrom(ch: Chain, x: seq<real>, blocks: seq<Block>, target: Target)
    requires Follows(ch, x) && CodecFed(ch) && Preserving(ch.filters) && Local(ch.filters)
    requires ch.outputSpec.interleave == Interleaved && forall b | b in blocks :: Submittable(ch, b)
    ensures ExpectedBytes(ch, x, target) + Play(ch, blocks, target).1
         == ExpectedBytes(ch, x + JoinedInput(blocks), target)
    decreases |blocks|
  {
    hide Preserving, Local, Follows, ExpectedBytes, Submittable, Chain.Process;
    if |blocks| == 0 {
      assert x + JoinedInput(blocks) == x;
    } else {
      var b, rest := blocks[0], blocks[1..];
      PlayBlock(ch, x, b, target);
      var (next, result) := ch.Process(b.input, b.frames, b.region, b.room, b.outputLength, target);
      var moved := ch.(history := next);
      forall r | r in rest ensures Submittable(moved, r) {
        SubmittableAnyHistory(ch, next, r);
      }
      PlayFrom(moved, x + b.input, rest, target);
      HistoryIsIrrelevant(ch, next, x + b.input, target);
      HistoryIsIrrelevant(ch, next, (x + b.input) + JoinedInput(rest), target);
      assert (x + b.input) + JoinedInput(rest) == x + JoinedInput(blocks);
      Associative(ExpectedBytes(ch, x, target), result.value, Play(moved, rest, target).1);
    }
  }

  /** Successive process_to_output calls, call by call. */
  function PlayEach(ch: Chain, blocks: seq<Block>, target: Target): (r: seq<Result<seq<Byte>, FilterError>>)
    requires ch.Valid()
    ensures |r| == |blocks|
    decreases |blocks|
  {
    if |blocks| == 0 then []
    else
      var b := blocks[0];
      var (next, result) := ch.Process(b.input, b.frames, b.region, b.room, b.outputLength, target);
      [result] + PlayEach(ch.(history := next), blocks[1..], target)
  }

  function EncodedFrames(ch: Chain, frames: seq<Frame>, target: Target): seq<Byte>
    requires CodecFed(ch) && Framed(frames, ch.OutChannels())
  {
    EncodedBlock(Flat(frames, ch.OutChannels()), |frames|, ch.outputSpec, target)
  }

  lemma ExpectedAnyHistory(ch: Chain, history: State, x: seq<real>)
    requires CodecFed(ch) && |history.previous| == MAX_CHANNELS
    ensures Expected(ch.(history := history), x) == Expected(ch, x)
  {
    hide Resampled, Mapped, FrameAt;
  }

  /** One call: the bytes of exactly the frames by which the longer stream's output is
      longer, in whichever layout. */
  lemma OneCall(ch: Chain, x: seq<real>, b: Block, target: Target)
    requires Follows(ch, x) && Preserving(ch.filters) && Local(ch.filters) && Submittable(ch, b)
    ensures CodecFed(ch)
    ensures var (next, result) := ch.Process(b.input, b.frames, b.region, b.room, b.outputLength, target);
            && Follows(ch.(history := next), x + b.input)
            && Expected(ch, x) <= Expected(ch, x + b.input)
            && result == Ok(EncodedFrames(ch, Expected(ch, x + b.input)[|Expected(ch, x)|..], target))
  {
    hide Preserving, Local, Follows, Expected, Emitted, EncodedBlock, Flat, Sized;
    FollowedIsFed(ch, x);
    ProcessBlock(ch, b, target);
    FollowBlock(ch, x, b, target);
    var out := Emitted(ch, b.input, b.room).1;
    assert (Expected(ch, x) + out)[|Expected(ch, x)|..] == out;
  }

  lemma {:induction false} CallsFrom(ch: Chain, x: seq<real>, blocks: seq<Block>, target: Target, k: nat)
    requires Follows(ch, x) && CodecFed(ch) && Preserving(ch.filters) && Local(ch.filters)
    requires k < |blocks| && forall b | b in blocks :: Submittable(ch, b)
    ensures var before, after := x + JoinedInput(blocks[..k]), x + JoinedInput(blocks[..k]) + blocks[k].input;
            && Expected(ch, before) <= Expected(ch, after)
            && PlayEach(ch, blocks, target)[k]
               == Ok(EncodedFrames(ch, Expected(ch, after)[|Expected(ch, before)|..], target))
    decreases |blocks|
  {
    hide Preserving, Local, Follows, Expected, Submittable, Chain.Process, EncodedBlock, Flat;
    var b, rest := blocks[0], blocks[1..];
    OneCall(ch, x, b, target);
    if k == 0 {
      assert x + JoinedInput(blocks[..0]) == x;
    } else {
      var (next, result) := ch.Process(b.input, b.frames, b.region, b.room, b.outputLength, target);
      var moved := ch.(history := next);
      forall r | r in rest ensures Submittable(moved, r) {
        SubmittableAnyHistory(ch, next, r);
      }
      CallsFrom(moved, x + b.input, rest, target, k - 1);
      assert blocks[..k][1..] == rest[..k - 1] && blocks[..k][0] == b;
      var before := x + JoinedInput(blocks[..k]);
      assert (x + b.input) + JoinedInput(rest[..k - 1]) == before;
      ExpectedAnyHistory(ch, next, before);
      ExpectedAnyHistory(ch, next, before + blocks[k].input);
    }
  }

  /** Main theorem of the chain. In a stream submitted block by block to a chain fresh
      from build or reconfigure_output, in any split into whole frames and with any
      sized workspaces, each call succeeds and yields, in the output's layout, the
      encoding of just the frames by which the output of the stream so far, filtered
      and resampled by the reference definition, grows with that block. */
  lemma EachCallContinuesTheStream(ch: Chain, blocks: seq<Block>, target: Target, k: nat)
    requires CodecFed(ch) && Preserving(ch.filters) && Local(ch.filters)
    requires ch.history == State(0, Silence(), false)
    requires k < |blocks| && forall b | b in blocks :: Submittable(ch, b)
    ensures var before, after := JoinedInput(blocks[..k]), JoinedInput(blocks[..k]) + blocks[k].input;
            && Expected(ch, before) <= Expected(ch, after)
            && PlayEach(ch, blocks, target)[k]
               == Ok(EncodedFrames(ch, Expected(ch, after)[|Expected(ch, before)|..], target))
  {
    hide Expected, Preserving, Local, PlayEach, EncodedFrames;
    var none: seq<real> := [];
    FollowsNothing(ch);
    CallsFrom(ch, none, blocks, target, k);
    assert none + JoinedInput(blocks[..k]) == JoinedInput(blocks[..k]);
  }

  lemma FollowsNothing(ch: Chain)
    requires CodecFed(ch) && ch.history == State(0, Silence(), false)
    ensures Follows(ch, [])
  {
  }

  lemma SubmittableAnyHistory(ch: Chain, history: State, b: Block)
    requires CodecFed(ch) && |history.previous| == MAX_CHANNELS && Submittable(ch, b)
    ensures Submittable(ch.(history := history), b)
  {
  }

  /** For interleaved output the calls' bytes join into the bytes of the stream as a
      whole: filtered, resampled by the reference definition, and encoded. */
  lemma BytesIndependentOfBlocks(ch: Chain, blocks: seq<Block>, target: Target)
    requires CodecFed(ch) && Preserving(ch.filters) && Local(ch.filters)
    requires ch.history == State(0, Silence(), false)
    requires ch.outputSpec.interleave == Interleaved && forall b | b in blocks :: Submittable(ch, b)
    ensures Play(ch, blocks, target).1 == ExpectedBytes(ch, JoinedInput(blocks), target)
  {
    var none: seq<real> := [];
    PlayFrom(ch, none, blocks, target);
    assert none + JoinedInput(blocks) == JoinedInput(blocks);
    assert ExpectedBytes(ch, none, target) == [];
    assert ExpectedBytes(ch, none, target) + Play(ch, blocks, target).1 == Play(ch, blocks, target).1;
  }
}

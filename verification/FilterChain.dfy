/** The terminal conversion: crates/around-engine/src/filter_chain.rs with the
    workspace of crates/around-engine/src/pcm_buffer.rs. Samples are reals. */
module FilterChain {
  import opened Arith
  import opened Pcm
  import opened Resampler
  import opened SampleCodec
  import opened BlockLayout

  const MAX_CHANNELS: nat := 32

  // --------------------------------------------------- flat samples and frames

  function FrameAt(x: seq<real>, channels: nat, f: nat): (r: Frame)
    requires 0 < channels && f < |x| / channels
    ensures |r| == channels
  {
    FrameInside(|x|, channels, f);
    x[f * channels..f * channels + channels]
  }

  function FramesOf(x: seq<real>, channels: nat): (r: seq<Frame>)
    requires 0 < channels
    ensures |r| == |x| / channels && Framed(r, channels)
  {
    seq(|x| / channels, f requires 0 <= f < |x| / channels => FrameAt(x, channels, f))
  }

  lemma FrameInside(n: nat, channels: nat, f: nat)
    requires 0 < channels && f < n / channels
    ensures f * channels + channels <= n
  {
    MulMonotone(f + 1, n / channels, channels);
    assert (f + 1) * channels == f * channels + channels;
  }

  lemma FrameSample(x: seq<real>, channels: nat, n: nat, f: nat, c: nat)
    requires |x| == n * channels && f < n && c < channels
    ensures |FramesOf(x, channels)| == n && f * channels + c < |x|
    ensures FramesOf(x, channels)[f][c] == x[f * channels + c]
  {
    DivModUnique(n * channels, channels, n, 0);
    FrameInside(|x|, channels, f);
  }

  function Flat(frames: seq<Frame>, channels: nat): (x: seq<real>)
    requires Framed(frames, channels)
    ensures |x| == |frames| * channels
  {
    seq(|frames| * channels, j requires 0 <= j < |frames| * channels =>
      (RowMajorSplit(j, |frames|, channels); frames[j / channels][j % channels]))
  }

  lemma FlatStep(frames: seq<Frame>, last: Frame, channels: nat)
    requires Framed(frames, channels) && |last| == channels
    ensures Framed(frames + [last], channels)
    ensures Flat(frames + [last], channels) == Flat(frames, channels) + last
  {
    assert (|frames| + 1) * channels == |frames| * channels + channels;
    forall j | 0 <= j < (|frames| + 1) * channels
      ensures Flat(frames + [last], channels)[j] == (Flat(frames, channels) + last)[j]
    {
      RowMajorSplit(j, |frames| + 1, channels);
      if j < |frames| * channels {
        RowMajorSplit(j, |frames|, channels);
      } else {
        DivModUnique(j, channels, |frames|, j - |frames| * channels);
      }
    }
  }

  lemma {:induction false} FlatConcat(a: seq<Frame>, b: seq<Frame>, channels: nat)
    requires Framed(a, channels) && Framed(b, channels)
    ensures Framed(a + b, channels)
    ensures Flat(a + b, channels) == Flat(a, channels) + Flat(b, channels)
  {
    FramedConcat(a, b, channels);
    if |b| == 0 {
      assert a + b == a;
    } else {
      var n := |b| - 1;
      FlatConcat(a, b[..n], channels);
      assert b == b[..n] + [b[n]] && a + b == (a + b[..n]) + [b[n]];
      FlatStep(a + b[..n], b[n], channels);
      FlatStep(b[..n], b[n], channels);
    }
  }

  /** Whole blocks of samples split into frames independently. */
  lemma FramesConcat(x: seq<real>, y: seq<real>, channels: nat)
    requires 0 < channels && |x| % channels == 0
    ensures FramesOf(x + y, channels) == FramesOf(x, channels) + FramesOf(y, channels)
  {
    var n := |x| / channels;
    assert |x| == n * channels;
    DivModShift(|y|, n, channels);
    forall f | 0 <= f < |FramesOf(x + y, channels)|
      ensures FramesOf(x + y, channels)[f] == (FramesOf(x, channels) + FramesOf(y, channels))[f]
    {
      if f < n {
        LeftFrame(x, y, channels, f);
      } else {
        RightFrame(x, y, channels, f - n);
      }
    }
  }

  lemma LeftFrame(x: seq<real>, y: seq<real>, channels: nat, f: nat)
    requires 0 < channels && f < |x| / channels && f < |x + y| / channels
    ensures FrameAt(x + y, channels, f) == FrameAt(x, channels, f)
  {
    FrameInside(|x|, channels, f);
  }

  lemma RightFrame(x: seq<real>, y: seq<real>, channels: nat, f: nat)
    requires 0 < channels && |x| % channels == 0 && f < |y| / channels
    requires |x| / channels + f < |x + y| / channels
    ensures FrameAt(x + y, channels, |x| / channels + f) == FrameAt(y, channels, f)
  {
    var n := |x| / channels;
    FrameInside(|y|, channels, f);
    FrameInside(|x + y|, channels, n + f);
    Distribute(n, f, channels);
    assert |x| == n * channels;
  }

  // ------------------------------------------------------------- workspace

  function Zeros(n: nat): (z: seq<real>)
    ensures |z| == n
  {
    seq(n, _ => 0.0)
  }

  /** Four regions allocated once and lent out; distinct allocations. */
  class PcmBuffer {
    const decode: array<real>
    const filter: array<real>
    const scratch: array<real>
    const output: array<Byte>

    ghost predicate Valid()
      reads this
    {
      decode != filter && decode != scratch && filter != scratch && filter.Length == scratch.Length
    }

    constructor WithProcessingCapacity(decodeSamples: nat, processingSamples: nat, outputBytes: nat)
      ensures Valid() && fresh(decode) && fresh(filter) && fresh(scratch) && fresh(output)
      ensures decode.Length == decodeSamples && filter.Length == processingSamples && output.Length == outputBytes
      ensures decode[..] == Zeros(decodeSamples) && filter[..] == Zeros(processingSamples)
    {
      decode := new real[decodeSamples](_ => 0.0);
      filter := new real[processingSamples](_ => 0.0);
      scratch := new real[processingSamples](_ => 0.0);
      output := new Byte[outputBytes](_ => 0);
    }

    constructor (decodeSamples: nat, outputBytes: nat)
      ensures Valid() && fresh(decode) && fresh(filter) && fresh(scratch) && fresh(output)
      ensures decode.Length == decodeSamples && output.Length == outputBytes
      ensures filter.Length == Max(decodeSamples, outputBytes / 4)
    {
      decode := new real[decodeSamples](_ => 0.0);
      filter := new real[Max(decodeSamples, outputBytes / 4)](_ => 0.0);
      scratch := new real[Max(decodeSamples, outputBytes / 4)](_ => 0.0);
      output := new Byte[outputBytes](_ => 0);
    }
  }

  // --------------------------------------------------------------- filters

  /** A filter rewrites a slice sample by sample, reports how many samples are
      meaningful and may announce a new channel count. */
  datatype Filter = Filter(
    sample: (seq<real>, U8, nat) -> real,
    count: (seq<real>, U8) -> nat,
    channelsOut: Option<U8>)

  function Applied(f: Filter, slice: seq<real>, channels: U8): (r: seq<real>)
    ensures |r| == |slice|
  {
    seq(|slice|, i requires 0 <= i < |slice| => f.sample(slice, channels, i))
  }

  datatype Stage = Stage(buffer: seq<real>, count: nat, channels: U8)

  /** The filter loop: each filter sees the meaningful slice of the buffer. */
  function Filtered(filters: seq<Filter>, s: Stage): (r: Result<Stage, FilterError>)
    requires s.count <= |s.buffer|
    ensures r.Ok? ==> r.value.count <= |r.value.buffer| == |s.buffer|
    ensures r.Ok? && s.channels <= MAX_CHANNELS ==> r.value.channels <= MAX_CHANNELS
    decreases |filters|
  {
    if |filters| == 0 then Ok(s)
    else
      var slice := s.buffer[..s.count];
      var buffer := Applied(filters[0], slice, s.channels) + s.buffer[s.count..];
      var count := Min(filters[0].count(slice, s.channels), |buffer|);
      match filters[0].channelsOut
      case None => Filtered(filters[1..], Stage(buffer, count, s.channels))
      case Some(channels) =>
        if channels > MAX_CHANNELS then Err(InputFormat)
        else Filtered(filters[1..], Stage(buffer, count, channels))
  }

  /** The buffer the filter loop leaves, also when it stops early. */
  function FilteredBuffer(filters: seq<Filter>, s: Stage): (b: seq<real>)
    requires s.count <= |s.buffer|
    ensures |b| == |s.buffer|
    ensures Filtered(filters, s).Ok? ==> Filtered(filters, s).value.buffer == b
    decreases |filters|
  {
    if |filters| == 0 then s.buffer
    else
      var slice := s.buffer[..s.count];
      var buffer := Applied(filters[0], slice, s.channels) + s.buffer[s.count..];
      var count := Min(filters[0].count(slice, s.channels), |buffer|);
      match filters[0].channelsOut
      case None => FilteredBuffer(filters[1..], Stage(buffer, count, s.channels))
      case Some(channels) =>
        if channels > MAX_CHANNELS then buffer else FilteredBuffer(filters[1..], Stage(buffer, count, channels))
  }

  /** Filters that keep the number of samples and channels, such as Volume. */
  ghost predicate Preserving(filters: seq<Filter>) {
    forall f | f in filters :: f.channelsOut.None? && forall s: seq<real>, c: U8 :: f.count(s, c) == |s|
  }

  lemma {:induction false} PreservedStage(filters: seq<Filter>, s: Stage)
    requires Preserving(filters) && s.count <= |s.buffer|
    ensures Filtered(filters, s).Ok?
    ensures Filtered(filters, s).value.count == s.count && Filtered(filters, s).value.channels == s.channels
    decreases |filters|
  {
    if |filters| > 0 {
      assert filters[0] in filters;
      var slice := s.buffer[..s.count];
      var buffer := Applied(filters[0], slice, s.channels) + s.buffer[s.count..];
      PreservedStage(filters[1..], Stage(buffer, s.count, s.channels));
    }
  }

  // ------------------------------------------------- the chain, as a function

  /** A filter chain's value: its formats, its filters and the resampler state,
      whose history always has MAX_CHANNELS places. */
  datatype Chain = Chain(filters: seq<Filter>, decodeSpec: SampleSpec, outputSpec: SampleSpec, history: State)
  {
    predicate Valid() {
      decodeSpec.Valid() && outputSpec.Valid() && |history.previous| == MAX_CHANNELS
    }

    predicate SameRate() { decodeSpec.sampleRate == outputSpec.sampleRate }

    function OutChannels(): nat { Max(outputSpec.channels, 1) }

    function ConfigFor(channels: U8): Config {
      Config(decodeSpec.sampleRate, outputSpec.sampleRate, Max(channels, 1), OutChannels())
    }

    /** Output frames reserved for n input frames. */
    function RoomFor(frames: nat): nat
      requires Valid()
    {
      CeilDiv(frames * outputSpec.sampleRate, decodeSpec.sampleRate) + 2
    }

    /** workspace_requirements: processing samples and output bytes. */
    function Requirements(inputSamples: nat): (nat, nat)
      requires Valid()
    {
      var outputFrames := RoomFor(inputSamples / Max(decodeSpec.channels, 1));
      (Max(inputSamples, outputFrames * OutChannels()), outputFrames * outputSpec.BytesPerFrame())
    }

    /** Format checks and the filter loop, on a filter region of this content. */
    function Prepared(input: seq<real>, frames: nat, region: seq<real>): (r: Result<Stage, FilterError>)
      ensures r.Ok? ==> r.value.count <= |r.value.buffer| == |region| && r.value.channels <= MAX_CHANNELS
    {
      if decodeSpec.encoding != F32 || decodeSpec.interleave != Interleaved then Err(InputFormat)
      else if frames * decodeSpec.channels > USIZE_MAX then Err(InputFormat)
      else if |input| != frames * decodeSpec.channels then Err(InputFormat)
      else if |region| < |input| then Err(WorkspaceTooSmall(|input|, |region|))
      else if decodeSpec.channels > MAX_CHANNELS then Err(InputFormat)
      else Filtered(filters, Stage(input + region[|input|..], |input|, decodeSpec.channels))
    }

    /** The filter region after a call on this content. */
    function Region(input: seq<real>, frames: nat, region: seq<real>): (r: seq<real>)
      ensures |r| == |region|
    {
      if decodeSpec.encoding != F32 || decodeSpec.interleave != Interleaved || frames * decodeSpec.channels > USIZE_MAX
         || |input| != frames * decodeSpec.channels || |region| < |input| then region
      else
        var stage := Stage(input + region[|input|..], |input|, decodeSpec.channels);
        if decodeSpec.channels > MAX_CHANNELS then stage.buffer else FilteredBuffer(filters, stage)
    }

    function RequiredFrames(inputFrames: nat): nat
      requires Valid()
    {
      if SameRate() then inputFrames else RoomFor(inputFrames)
    }

    /** Rate and channel conversion of the filtered samples, if there is room. */
    function Converted(samples: seq<real>, channels: U8, room: nat): (r: Result<(State, seq<Frame>), FilterError>)
      requires Valid() && channels <= MAX_CHANNELS
      ensures r.Ok? ==> Framed(r.value.1, OutChannels()) && |r.value.0.previous| == MAX_CHANNELS
    {
      var c := ConfigFor(channels);
      var input := FramesOf(samples, c.inChannels);
      var required := RequiredFrames(|input|);
      if room / OutChannels() < required then Err(WorkspaceTooSmall(required * OutChannels(), room))
      else if SameRate() then Ok((history, Mapped(input, c)))
      else Ok(Advance(history, input, room / OutChannels(), c))
    }

    /** process_to_output: the new history and the encoded block. A block whose
        encoding does not fit has still advanced the resampler. */
    function Process(input: seq<real>, frames: nat, region: seq<real>, room: nat, outputLength: nat, target: Target)
      : (r: (State, Result<seq<Byte>, FilterError>))
      requires Valid()
      ensures |r.0.previous| == MAX_CHANNELS
    {
      match Prepared(input, frames, region)
      case Err(e) => (history, Err(e))
      case Ok(stage) =>
        match Converted(stage.buffer[..stage.count], stage.channels, room)
        case Err(e) => (history, Err(e))
        case Ok((next, out)) =>
          match EncodeResult(|out|, outputSpec, outputLength)
          case Err(e) => (next, Err(e))
          case Ok(_) => (next, Ok(EncodedBlock(Flat(out, OutChannels()), |out|, outputSpec, target)))
    }
  }

  /** A workspace at least as large as workspace_requirements(maxSamples) asks. */
  predicate Sized(ch: Chain, maxSamples: nat, region: nat, room: nat, outputLength: nat)
    requires ch.Valid()
  {
    var (processing, bytes) := ch.Requirements(maxSamples);
    processing <= region && processing <= room && bytes <= outputLength && bytes <= USIZE_MAX
  }

  /** Equal rates: every frame is only channel-mapped. */
  function Mapped(input: seq<Frame>, c: Config): (out: seq<Frame>)
    requires c.Valid() && Framed(input, c.inChannels)
    ensures |out| == |input| && Framed(out, c.outChannels)
  {
    seq(|input|, f requires 0 <= f < |input| => MappedFrame(input[f], c))
  }

  function MappedFrame(frame: Frame, c: Config): (out: Frame)
    requires c.Valid() && |frame| == c.inChannels
    ensures |out| == c.outChannels
  {
    seq(c.outChannels, ch requires 0 <= ch < c.outChannels => MapChannel(frame, ch, c.outChannels))
  }

  /** One kernel call on a history of MAX_CHANNELS places, of which the first
      inChannels are used. */
  function Advance(h: State, input: seq<Frame>, capacity: nat, c: Config): (r: (State, seq<Frame>))
    requires c.Valid() && c.inChannels <= MAX_CHANNELS == |h.previous| && Framed(input, c.inChannels)
    ensures |r.0.previous| == MAX_CHANNELS && Framed(r.1, c.outChannels)
  {
    if |input| == 0 then (h, [])
    else
      var (st, out) := Convert(h.(previous := h.previous[..c.inChannels]), input, capacity, c);
      (st.(previous := st.previous + h.previous[c.inChannels..]), out)
  }

  // --------------------------------------------------- the chain, as an object

  /** The kernel reads its history, not its position. */
  lemma SameHistory(st: State, other: State, frames: seq<Frame>, position: nat, c: Config)
    requires c.Valid() && 0 < |frames| && Framed(frames, c.inChannels)
    requires st.hasPrevious == other.hasPrevious && (st.hasPrevious ==> st.previous == other.previous)
    requires st.hasPrevious ==> |st.previous| == c.inChannels
    ensures OutputFrame(st, frames, position, c) == OutputFrame(other, frames, position, c)
  {
    var base := position / c.outRate;
    assert SequenceFrame(st, frames, base) == SequenceFrame(other, frames, base);
    assert SequenceFrame(st, frames, base + 1) == SequenceFrame(other, frames, base + 1);
  }

  lemma ConvertedCases(ch: Chain, samples: seq<real>, channels: U8, room: nat)
    requires ch.Valid() && channels <= MAX_CHANNELS
    ensures var c := ch.ConfigFor(channels);
            var required := ch.RequiredFrames(|samples| / c.inChannels);
            ch.Converted(samples, channels, room)
            == if room / c.outChannels < required then Err(WorkspaceTooSmall(required * c.outChannels, room))
               else if ch.SameRate() then Ok((ch.history, Mapped(FramesOf(samples, c.inChannels), c)))
               else Ok(Advance(ch.history, FramesOf(samples, c.inChannels), room / c.outChannels, c))
  {
    hide Advance, Mapped, FrameAt;
  }

  lemma ConvertCount(st: State, input: seq<Frame>, capacity: nat, c: Config)
    requires c.Valid() && Framed(input, c.inChannels) && 0 < |input|
    requires st.hasPrevious ==> |st.previous| == c.inChannels
    ensures |Convert(st, input, capacity, c).1| == Min(capacity, Pending(st.position, SequenceLength(st, input), c))
  {
  }

  class FilterChain {
    const filters: seq<Filter>
    const decodeSpec: SampleSpec
    const target: Target
    const previousFrame: array<real>
    var outputSpec: SampleSpec
    var resamplePosition: nat
    var hasPreviousFrame: bool

    ghost predicate Valid()
      reads this, previousFrame
    {
      previousFrame.Length == MAX_CHANNELS && decodeSpec.Valid() && outputSpec.Valid()
    }

    ghost function History(): (h: State)
      reads this, previousFrame
    {
      State(resamplePosition, previousFrame[..], hasPreviousFrame)
    }

    ghost function Value(): (c: Chain)
      reads this, previousFrame
      requires Valid()
      ensures c.Valid()
    {
      Chain(filters, decodeSpec, outputSpec, History())
    }

    constructor Build(decodeSpec: SampleSpec, filters: seq<Filter>, outputSpec: SampleSpec, target: Target)
      requires decodeSpec.Valid() && outputSpec.Valid()
      ensures Valid() && fresh(previousFrame) && this.target == target
      ensures Value() == Chain(filters, decodeSpec, outputSpec, State(0, Silence(), false))
    {
      this.filters, this.decodeSpec, this.outputSpec, this.target := filters, decodeSpec, outputSpec, target;
      resamplePosition, hasPreviousFrame := 0, false;
      previousFrame := new real[MAX_CHANNELS](_ => 0.0);
      new;
      assert previousFrame[..] == Silence();
    }

    /** A new output format starts from silence. */
    method ReconfigureOutput(outputSpec: SampleSpec)
      requires Valid() && outputSpec.Valid()
      modifies this, previousFrame
      ensures Valid()
      ensures Value() == old(Value()).(outputSpec := outputSpec, history := State(0, Silence(), false))
    {
      this.outputSpec := outputSpec;
      resamplePosition := 0;
      for i := 0 to previousFrame.Length
        invariant forall k | 0 <= k < i :: previousFrame[k] == 0.0
        modifies previousFrame
      {
        previousFrame[i] := 0.0;
      }
      hasPreviousFrame := false;
      assert previousFrame[..] == Silence();
    }

    /** The kernel's view of history frame and block, clamps included. */
    function SampleAt(input: array<real>, inputFrames: nat, inChannels: nat, index: int, channel: nat): (v: real)
      reads this, previousFrame, input
      requires 0 < inputFrames && 0 < inChannels <= previousFrame.Length && inputFrames * inChannels <= input.Length
    {
      var sourceChannel := if inChannels == 1 then 0 else Min(channel, inChannels - 1);
      if hasPreviousFrame && index == 0 then previousFrame[sourceChannel]
      else
        var i := if hasPreviousFrame then index - 1 else index;
        var current := if i < 0 then 0 else Min(i, inputFrames - 1);
        RowMajorBound(current, sourceChannel, inputFrames, inChannels);
        input[current * inChannels + sourceChannel]
    }

    /** The block in the input array, as frames. */
    ghost predicate Holds(input: array<real>, frames: seq<Frame>, inChannels: nat)
      reads input
    {
      0 < inChannels && 0 < |frames| && |frames| * inChannels <= input.Length
      && frames == FramesOf(input[..|frames| * inChannels], inChannels)
    }

    /** What the kernel reads is a place in the frame sequence. */
    lemma SampleIsFrame(input: array<real>, frames: seq<Frame>, inChannels: nat, index: int, channel: nat)
      requires Valid() && inChannels <= MAX_CHANNELS && Holds(input, frames, inChannels)
      ensures SampleAt(input, |frames|, inChannels, index, channel)
           == SequenceFrame(Shortened(inChannels), frames, index)[Min(channel, inChannels - 1)]
    {
      var i := if hasPreviousFrame then index - 1 else index;
      var current := if i < 0 then 0 else Min(i, |frames| - 1);
      FrameSample(input[..|frames| * inChannels], inChannels, |frames|, current, Min(channel, inChannels - 1));
    }

    /** The history as the kernel uses it: the first inChannels places. */
    ghost function Shortened(inChannels: nat): (st: State)
      reads this, previousFrame
      requires inChannels <= previousFrame.Length
    {
      State(resamplePosition, previousFrame[..inChannels], hasPreviousFrame)
    }

    /** The kernel's two reads of one channel, interpolated. */
    function Interpolated(input: array<real>, inputFrames: nat, inChannels: nat, base: int, fraction: real,
                          channel: nat): real
      reads this, previousFrame, input
      requires 0 < inputFrames && 0 < inChannels <= previousFrame.Length && inputFrames * inChannels <= input.Length
    {
      Lerp(SampleAt(input, inputFrames, inChannels, base, channel),
           SampleAt(input, inputFrames, inChannels, base + 1, channel), fraction)
    }

    /** The frame the kernel interpolates, before channel mapping. */
    ghost function Mixed(frames: seq<Frame>, base: nat, fraction: real, inChannels: nat): (mixed: Frame)
      reads this, previousFrame
      requires Valid() && inChannels <= MAX_CHANNELS && 0 < |frames| && Framed(frames, inChannels)
      ensures |mixed| == inChannels
    {
      LerpFrame(SequenceFrame(Shortened(inChannels), frames, base),
                SequenceFrame(Shortened(inChannels), frames, base + 1), fraction)
    }

    lemma InterpolatedIsMixed(input: array<real>, frames: seq<Frame>, inChannels: nat, base: nat, fraction: real,
                              channel: nat)
      requires Valid() && inChannels <= MAX_CHANNELS && Holds(input, frames, inChannels)
      ensures Interpolated(input, |frames|, inChannels, base, fraction, channel)
           == Mixed(frames, base, fraction, inChannels)[Min(channel, inChannels - 1)]
    {
      SampleIsFrame(input, frames, inChannels, base, channel);
      SampleIsFrame(input, frames, inChannels, base + 1, channel);
    }

    /** mapped_stateful_sample: the mono target averages interpolated channels. */
    method MappedStatefulSample(input: array<real>, inputFrames: nat, c: Config, ghost frames: seq<Frame>,
                                base: nat, fraction: real, outChannel: nat)
      returns (value: real)
      requires Valid() && c.Valid() && c.inChannels <= MAX_CHANNELS && outChannel < c.outChannels
      requires Holds(input, frames, c.inChannels) && inputFrames == |frames|
      ensures value == MapChannel(Mixed(frames, base, fraction, c.inChannels), outChannel, c.outChannels)
    {
      hide Mixed, Interpolated, FramesOf, FrameAt;
      ghost var mixed := Mixed(frames, base, fraction, c.inChannels);
      if c.outChannels == 1 {
        var sum := 0.0;
        for channel := 0 to c.inChannels
          invariant sum == Sum(mixed[..channel])
        {
          InterpolatedIsMixed(input, frames, c.inChannels, base, fraction, channel);
          sum := sum + Interpolated(input, inputFrames, c.inChannels, base, fraction, channel);
          assert mixed[..channel + 1][..channel] == mixed[..channel];
        }
        assert mixed[..c.inChannels] == mixed;
        value := sum / c.inChannels as real;
      } else {
        var channel := if c.inChannels == 1 then 0 else Min(outChannel, c.inChannels - 1);
        InterpolatedIsMixed(input, frames, c.inChannels, base, fraction, channel);
        value := Interpolated(input, inputFrames, c.inChannels, base, fraction, channel);
      }
    }

    lemma OutputIsMixed(frames: seq<Frame>, position: nat, c: Config, base: nat, fraction: real, ch: nat)
      requires Valid() && c.Valid() && c.inChannels <= MAX_CHANNELS && 0 < |frames| && Framed(frames, c.inChannels)
      requires base == position / c.outRate && fraction == (position % c.outRate) as real / c.outRate as real
      requires ch < c.outChannels
      ensures OutputFrame(Shortened(c.inChannels), frames, position, c)[ch]
           == MapChannel(Mixed(frames, base, fraction, c.inChannels), ch, c.outChannels)
    {
    }

    /** One output frame, written channel by channel. */
    method WriteFrame(input: array<real>, inputFrames: nat, c: Config, ghost frames: seq<Frame>, position: nat,
                      output: array<real>, at: nat)
      requires Valid() && c.Valid() && c.inChannels <= MAX_CHANNELS && at + c.outChannels <= output.Length
      requires Holds(input, frames, c.inChannels) && inputFrames == |frames|
      requires output != input && output != previousFrame
      modifies output
      ensures output[at..at + c.outChannels] == OutputFrame(Shortened(c.inChannels), frames, position, c)
      ensures output[..at] == old(output[..at])
    {
      var base, fraction := position / c.outRate, (position % c.outRate) as real / c.outRate as real;
      ghost var goal := OutputFrame(Shortened(c.inChannels), frames, position, c);
      for outChannel := 0 to c.outChannels
        invariant output[..at] == old(output[..at])
        invariant output[at..at + outChannel] == goal[..outChannel]
      {
        var value := MappedStatefulSample(input, inputFrames, c, frames, base, fraction, outChannel);
        OutputIsMixed(frames, position, c, base, fraction, outChannel);
        output[at + outChannel] := value;
      }
    }

    /** convert_f32_stateful: fills `output` frame by frame while the position has
        a right neighbour and there is room, then keeps the history. */
    method ConvertF32Stateful(input: array<real>, inputFrames: nat, c: Config, output: array<real>, capacity: nat)
      returns (produced: nat)
      requires Valid() && c.Valid()
      requires inputFrames * c.inChannels <= input.Length && capacity * c.outChannels <= output.Length
      requires output != input && output != previousFrame && input != previousFrame
      modifies this`resamplePosition, this`hasPreviousFrame, previousFrame, output
      ensures Valid()
      ensures c.inChannels > MAX_CHANNELS ==> produced == 0 && History() == old(History())
      ensures c.inChannels <= MAX_CHANNELS ==>
                var (next, frames) := Advance(old(History()),
                                              FramesOf(input[..inputFrames * c.inChannels], c.inChannels),
                                              capacity, c);
                && History() == next && produced == |frames| <= capacity
                && produced * c.outChannels <= output.Length
                && output[..produced * c.outChannels] == Flat(frames, c.outChannels)
    {
      hide FrameAt, OutputFrame, Flat, Pending;
      ghost var frames := FramesOf(input[..inputFrames * c.inChannels], c.inChannels);
      DivModUnique(inputFrames * c.inChannels, c.inChannels, inputFrames, 0);
      if inputFrames == 0 {
        return 0;
      }
      if c.inChannels > previousFrame.Length {
        return 0;
      }
      produced := KernelLoop(input, inputFrames, c, frames, output, capacity);
      SaveHistory(input, inputFrames, c, frames, old(Shortened(c.inChannels)));
    }

    /** The kernel's loop: frames at successive positions until the block ends or
        the output is full. */
    method KernelLoop(input: array<real>, inputFrames: nat, c: Config, ghost frames: seq<Frame>, output: array<real>,
                      capacity: nat)
      returns (produced: nat)
      requires Valid() && c.Valid() && c.inChannels <= MAX_CHANNELS && capacity * c.outChannels <= output.Length
      requires Holds(input, frames, c.inChannels) && inputFrames == |frames|
      requires output != input && output != previousFrame
      modifies this`resamplePosition, output
      ensures var all := Convert(old(Shortened(c.inChannels)), frames, capacity, c).1;
              && produced == |all| <= capacity && produced * c.outChannels <= output.Length
              && output[..produced * c.outChannels] == Flat(all, c.outChannels)
      ensures resamplePosition == old(resamplePosition) + produced * c.inRate
    {
      hide OutputFrame, FrameAt, Convert, Pending, Flat;
      ghost var st := Shortened(c.inChannels);
      ghost var all := Convert(st, frames, capacity, c).1;
      var sequenceOffset := if hasPreviousFrame then 1 else 0;
      var sequenceLength := inputFrames + sequenceOffset;
      ConvertCount(st, frames, capacity, c);
      produced := 0;
      while resamplePosition + c.outRate < sequenceLength * c.outRate && produced < capacity
        invariant produced <= |all|
        invariant resamplePosition == st.position + produced * c.inRate
        invariant produced * c.outChannels <= output.Length
        invariant output[..produced * c.outChannels] == Flat(all[..produced], c.outChannels)
        decreases capacity - produced
      {
        PendingCounts(st.position, sequenceLength, c, produced);
        MulMonotone(produced + 1, capacity, c.outChannels);
        ConvertAt(st, frames, capacity, c, produced);
        NextFrame(input, inputFrames, c, frames, st, all, produced, resamplePosition, output);
        resamplePosition := resamplePosition + c.inRate;
        produced := produced + 1;
      }
      PendingCounts(st.position, sequenceLength, c, produced);
      assert all[..produced] == all;
    }

    /** Appends output frame `produced` to the ones already written. */
    method NextFrame(input: array<real>, inputFrames: nat, c: Config, ghost frames: seq<Frame>, ghost st: State,
                     ghost all: seq<Frame>, produced: nat, position: nat, output: array<real>)
      requires Valid() && c.Valid() && c.inChannels <= MAX_CHANNELS
      requires Holds(input, frames, c.inChannels) && inputFrames == |frames|
      requires output != input && output != previousFrame
      requires Framed(all, c.outChannels) && produced < |all| && position == st.position + produced * c.inRate
      requires st.previous == Shortened(c.inChannels).previous && st.hasPrevious == hasPreviousFrame
      requires all[produced] == OutputFrame(st, frames, position, c)
      requires (produced + 1) * c.outChannels <= output.Length && produced * c.outChannels <= output.Length
      requires output[..produced * c.outChannels] == Flat(all[..produced], c.outChannels)
      modifies output
      ensures output[..(produced + 1) * c.outChannels] == Flat(all[..produced + 1], c.outChannels)
    {
      ghost var at := produced * c.outChannels;
      assert (produced + 1) * c.outChannels == at + c.outChannels;
      WriteFrame(input, inputFrames, c, frames, position, output, produced * c.outChannels);
      SameHistory(st, Shortened(c.inChannels), frames, position, c);
      FlatStep(all[..produced], all[produced], c.outChannels);
      assert all[..produced + 1] == all[..produced] + [all[produced]];
      assert output[..at + c.outChannels] == output[..at] + output[at..at + c.outChannels];
    }

    /** The kernel's tail: keep one frame and rebase the position. */
    method SaveHistory(input: array<real>, inputFrames: nat, c: Config, ghost frames: seq<Frame>, ghost st: State)
      requires Valid() && c.Valid() && c.inChannels <= MAX_CHANNELS && input != previousFrame
      requires Holds(input, frames, c.inChannels) && inputFrames == |frames|
      requires st.hasPrevious == hasPreviousFrame
      modifies this`resamplePosition, this`hasPreviousFrame, previousFrame
      ensures Valid() && hasPreviousFrame
      ensures previousFrame[..] == frames[SavedIndex(st, frames, old(resamplePosition), c)]
              + old(previousFrame[c.inChannels..])
      ensures var done := (SequenceLength(st, frames) - 1) * c.outRate;
              resamplePosition == if old(resamplePosition) < done then 0 else old(resamplePosition) - done
    {
      var sequenceOffset := if hasPreviousFrame then 1 else 0;
      var sequenceLength := inputFrames + sequenceOffset;
      var consumed := resamplePosition / c.outRate;
      var previousIndex := Min(if consumed < sequenceOffset then 0 else consumed - sequenceOffset, inputFrames - 1);
      assert previousIndex == SavedIndex(st, frames, resamplePosition, c);
      KeepFrame(input, c, frames, previousIndex);
      hasPreviousFrame := true;
      var done := (sequenceLength - 1) * c.outRate;
      resamplePosition := if resamplePosition < done then 0 else resamplePosition - done;
    }

    /** Copies one input frame into the first places of the history. */
    method KeepFrame(input: array<real>, c: Config, ghost frames: seq<Frame>, index: nat)
      requires Valid() && c.Valid() && c.inChannels <= MAX_CHANNELS && input != previousFrame
      requires Holds(input, frames, c.inChannels) && index < |frames|
      modifies previousFrame
      ensures previousFrame[..] == frames[index] + old(previousFrame[c.inChannels..])
    {
      hide FramesOf, FrameAt;
      ghost var flat := input[..|frames| * c.inChannels];
      for ch := 0 to c.inChannels
        invariant previousFrame[..ch] == frames[index][..ch]
        invariant previousFrame[c.inChannels..] == old(previousFrame[c.inChannels..])
      {
        FrameSample(flat, c.inChannels, |frames|, index, ch);
        assert input[index * c.inChannels + ch] == flat[index * c.inChannels + ch];
        previousFrame[ch] := input[index * c.inChannels + ch];
      }
      assert previousFrame[..] == previousFrame[..c.inChannels] + previousFrame[c.inChannels..];
    }

    /** The filter loop, rewriting the meaningful slice in place. */
    method RunFilters(region: array<real>, samples: nat) returns (r: Result<(nat, U8), FilterError>)
      requires samples <= region.Length
      modifies region
      ensures match Filtered(filters, Stage(old(region[..]), samples, decodeSpec.channels))
              case Err(e) => r == Err(e)
              case Ok(s) => r == Ok((s.count, s.channels)) && region[..] == s.buffer
      ensures region[..] == FilteredBuffer(filters, Stage(old(region[..]), samples, decodeSpec.channels))
    {
      var count: nat := samples;
      var channels: U8 := decodeSpec.channels;
      assert filters[0..] == filters;
      for k := 0 to |filters|
        invariant count <= region.Length
        invariant Filtered(filters[k..], Stage(region[..], count, channels))
               == Filtered(filters, Stage(old(region[..]), samples, decodeSpec.channels))
        invariant FilteredBuffer(filters[k..], Stage(region[..], count, channels))
               == FilteredBuffer(filters, Stage(old(region[..]), samples, decodeSpec.channels))
      {
        var f := filters[k];
        var slice := region[..count];
        ghost var before := region[..];
        ApplyInPlace(f, slice, channels, region);
        assert region[..] == Applied(f, slice, channels) + before[count..];
        assert filters[k..][0] == f && filters[k..][1..] == filters[k + 1..];
        count := Min(f.count(slice, channels), region.Length);
        if f.channelsOut.Some? {
          if f.channelsOut.value > MAX_CHANNELS {
            return Err(InputFormat);
          }
          channels := f.channelsOut.value;
        }
      }
      return Ok((count, channels));
    }

    /** convert_f32_stateless as process_to_output calls it, with as many output
        as input frames: the ratio is one, so every frame meets itself. */
    method ConvertF32Stateless(input: array<real>, frameCount: nat, c: Config, output: array<real>)
      requires Valid() && c.Valid() && output != input
      requires frameCount * c.inChannels <= input.Length && frameCount * c.outChannels <= output.Length
      modifies output
      ensures output[..frameCount * c.outChannels]
           == Flat(Mapped(FramesOf(old(input[..frameCount * c.inChannels]), c.inChannels), c), c.outChannels)
    {
      ghost var frames := FramesOf(input[..frameCount * c.inChannels], c.inChannels);
      DivModUnique(frameCount * c.inChannels, c.inChannels, frameCount, 0);
      ghost var goal := Mapped(frames, c);
      for outFrame := 0 to frameCount
        invariant outFrame * c.outChannels <= output.Length
        invariant output[..outFrame * c.outChannels] == Flat(goal[..outFrame], c.outChannels)
      {
        MulMonotone(outFrame + 1, frameCount, c.outChannels);
        NextMappedFrame(input, frameCount, c, frames, goal, outFrame, output);
      }
      assert goal[..frameCount] == goal;
    }

    method NextMappedFrame(input: array<real>, frameCount: nat, c: Config, ghost frames: seq<Frame>,
                           ghost goal: seq<Frame>,
                           outFrame: nat, output: array<real>)
      requires Valid() && c.Valid() && Holds(input, frames, c.inChannels) && output != input
      requires frameCount == |frames| && goal == Mapped(frames, c) && outFrame < frameCount
      requires (outFrame + 1) * c.outChannels <= output.Length && outFrame * c.outChannels <= output.Length
      requires output[..outFrame * c.outChannels] == Flat(goal[..outFrame], c.outChannels)
      modifies output
      ensures output[..(outFrame + 1) * c.outChannels] == Flat(goal[..outFrame + 1], c.outChannels)
    {
      ghost var at := outFrame * c.outChannels;
      assert (outFrame + 1) * c.outChannels == at + c.outChannels;
      var numerator, denominator := outFrame * Max(frameCount, 1), Max(frameCount, 1);
      DivModUnique(numerator, denominator, outFrame, 0);
      var sourceFrame := numerator / denominator;
      var nextFrame := Min(sourceFrame + 1, frameCount - 1);
      WriteMappedFrame(input, c, sourceFrame, nextFrame, (numerator % denominator) as real / denominator as real,
                       frames, output, outFrame * c.outChannels);
      FlatStep(goal[..outFrame], goal[outFrame], c.outChannels);
      assert goal[..outFrame + 1] == goal[..outFrame] + [goal[outFrame]];
      assert output[..at + c.outChannels] == output[..at] + output[at..at + c.outChannels];
    }

    /** write_mapped_frame with a zero fraction. */
    method WriteMappedFrame(input: array<real>, c: Config, sourceFrame: nat, nextFrame: nat, fraction: real,
                            ghost frames: seq<Frame>, output: array<real>, at: nat)
      requires Valid() && c.Valid() && Holds(input, frames, c.inChannels) && output != input
      requires sourceFrame < |frames| && nextFrame < |frames| && fraction == 0.0
      requires at + c.outChannels <= output.Length
      modifies output
      ensures output[at..at + c.outChannels] == MappedFrame(frames[sourceFrame], c)
      ensures output[..at] == old(output[..at])
    {
      ghost var goal := MappedFrame(frames[sourceFrame], c);
      for outputChannel := 0 to c.outChannels
        invariant output[..at] == old(output[..at])
        invariant output[at..at + outputChannel] == goal[..outputChannel]
      {
        var value := MappedChannel(input, c, sourceFrame, nextFrame, fraction, outputChannel, frames);
        output[at + outputChannel] := value;
      }
    }

    method MappedChannel(input: array<real>, c: Config, sourceFrame: nat, nextFrame: nat, fraction: real,
                         outputChannel: nat, ghost frames: seq<Frame>)
      returns (value: real)
      requires Valid() && c.Valid() && Holds(input, frames, c.inChannels) && outputChannel < c.outChannels
      requires sourceFrame < |frames| && nextFrame < |frames| && fraction == 0.0
      ensures value == MapChannel(frames[sourceFrame], outputChannel, c.outChannels)
    {
      if c.outChannels == 1 {
        ghost var a := frames[sourceFrame];
        var sum := 0.0;
        for channel := 0 to c.inChannels
          invariant sum == Sum(a[..channel])
        {
          var v := Between(input, c, sourceFrame, nextFrame, fraction, channel, frames);
          sum := sum + v;
          assert a[..channel + 1][..channel] == a[..channel];
        }
        assert a[..c.inChannels] == a;
        value := sum / c.inChannels as real;
      } else {
        value := Between(input, c, sourceFrame, nextFrame, fraction,
                         if c.inChannels == 1 then 0 else Min(outputChannel, c.inChannels - 1), frames);
      }
    }

    /** One channel of a pair of frames of the input. */
    method Between(input: array<real>, c: Config, sourceFrame: nat, nextFrame: nat, fraction: real, channel: nat,
                   ghost frames: seq<Frame>)
      returns (v: real)
      requires Valid() && c.Valid() && Holds(input, frames, c.inChannels) && channel < c.inChannels
      requires sourceFrame < |frames| && nextFrame < |frames| && fraction == 0.0
      ensures v == frames[sourceFrame][channel]
    {
      FrameSample(input[..|frames| * c.inChannels], c.inChannels, |frames|, sourceFrame, channel);
      FrameSample(input[..|frames| * c.inChannels], c.inChannels, |frames|, nextFrame, channel);
      var a, b := input[sourceFrame * c.inChannels + channel], input[nextFrame * c.inChannels + channel];
      v := a + (b - a) * fraction;
    }

    /** Rate and channel conversion into the scratch region. */
    method ConvertInto(region: array<real>, count: nat, channels: U8, scratch: array<real>,
                       ghost before: Chain, ghost samples: seq<real>)
      returns (r: Result<nat, FilterError>)
      requires Valid() && before == Value() && count <= region.Length && channels <= MAX_CHANNELS
      requires samples == region[..count]
      requires region != scratch && region != previousFrame && scratch != previousFrame
      modifies this`resamplePosition, this`hasPreviousFrame, previousFrame, scratch
      ensures Valid()
      ensures before.Converted(samples, channels, scratch.Length).Err? ==>
                r == Err(before.Converted(samples, channels, scratch.Length).error) && History() == before.history
      ensures before.Converted(samples, channels, scratch.Length).Ok? ==>
                var (next, out) := before.Converted(samples, channels, scratch.Length).value;
                && History() == next && r == Ok(|out|) && |out| * before.OutChannels() <= scratch.Length
                && scratch[..|out| * before.OutChannels()] == Flat(out, before.OutChannels())
    {
      hide Advance, Mapped, Flat, FrameAt, FramesOf, CeilDiv, Chain.Converted;
      var c := Config(decodeSpec.sampleRate, outputSpec.sampleRate, Max(channels, 1), Max(outputSpec.channels, 1));
      var inputFrames := count / c.inChannels;
      var capacityFrames := scratch.Length / c.outChannels;
      var requiredFrames := inputFrames;
      if decodeSpec.sampleRate != outputSpec.sampleRate {
        requiredFrames := OutputFramesFor(inputFrames);
      }
      ConvertedCases(before, samples, channels, scratch.Length);
      if capacityFrames < requiredFrames {
        return Err(WorkspaceTooSmall(requiredFrames * c.outChannels, scratch.Length));
      }
      var produced := ConvertFrames(region, count, inputFrames, c, scratch, capacityFrames, samples);
      return Ok(produced);
    }

    /** The conversion proper, once there is room. */
    method ConvertFrames(region: array<real>, ghost count: nat, inputFrames: nat, c: Config, scratch: array<real>,
                         capacityFrames: nat, ghost samples: seq<real>)
      returns (produced: nat)
      requires Valid() && c.Valid() && c.inChannels <= MAX_CHANNELS
      requires count <= region.Length && samples == region[..count]
      requires inputFrames == |samples| / c.inChannels && capacityFrames == scratch.Length / c.outChannels
      requires decodeSpec.sampleRate == outputSpec.sampleRate ==> inputFrames <= capacityFrames
      requires region != scratch && region != previousFrame && scratch != previousFrame
      modifies this`resamplePosition, this`hasPreviousFrame, previousFrame, scratch
      ensures Valid()
      ensures var input := FramesOf(samples, c.inChannels);
              var (next, out) := if decodeSpec.sampleRate == outputSpec.sampleRate
                  then (old(History()), Mapped(input, c))
                                 else Advance(old(History()), input, capacityFrames, c);
              && History() == next && produced == |out| && |out| * c.outChannels <= scratch.Length
              && scratch[..|out| * c.outChannels] == Flat(out, c.outChannels)
    {
      hide Advance, Mapped, Flat, FrameAt, FramesOf;
      WholeFrames(samples, c.inChannels);
      assert samples[..inputFrames * c.inChannels] == region[..inputFrames * c.inChannels];
      DivModUnique(inputFrames * c.inChannels, c.inChannels, inputFrames, 0);
      assert capacityFrames * c.outChannels <= scratch.Length;
      if decodeSpec.sampleRate == outputSpec.sampleRate {
        MulMonotone(inputFrames, capacityFrames, c.outChannels);
        ConvertF32Stateless(region, inputFrames, c, scratch);
        return inputFrames;
      }
      produced := ConvertF32Stateful(region, inputFrames, c, scratch, capacityFrames);
    }

    /** process_to_output: whatever it does is Chain.Process. */
    method ProcessToOutput(input: seq<real>, frames: nat, workspace: PcmBuffer) returns (r: Result<nat, FilterError>)
      requires Valid() && workspace.Valid()
      requires workspace.filter != previousFrame && workspace.scratch != previousFrame
      modifies this`resamplePosition, this`hasPreviousFrame, previousFrame
      modifies workspace.filter, workspace.scratch, workspace.output
      ensures Valid()
      ensures var (next, result) := old(Value()).Process(
                input, frames, old(workspace.filter[..]), workspace.scratch.Length, workspace.output.Length, target);
              && History() == next
              && match result
                 case Err(e) => r == Err(e) && workspace.output[..] == old(workspace.output[..])
                 case Ok(bytes) =>
                   && r == Ok(|bytes|) && |bytes| <= workspace.output.Length
                   && workspace.output[..|bytes|] == bytes
                   && workspace.output[|bytes|..] == old(workspace.output[|bytes|..])
      ensures workspace.filter[..] == old(Value()).Region(input, frames, old(workspace.filter[..]))
    {
      hide FilteredBuffer;
      if decodeSpec.encoding != F32 || decodeSpec.interleave != Interleaved {
        return Err(InputFormat);
      }
      var expected := frames * decodeSpec.channels;
      if expected > USIZE_MAX {
        return Err(InputFormat);
      }
      if |input| != expected {
        return Err(InputFormat);
      }
      var region, scratch := workspace.filter, workspace.scratch;
      if region.Length < |input| {
        return Err(WorkspaceTooSmall(|input|, region.Length));
      }
      CopyIn(input, region);
      if decodeSpec.channels > MAX_CHANNELS {
        return Err(InputFormat);
      }
      var filtered := RunFilters(region, |input|);
      if filtered.Err? {
        return Err(filtered.error);
      }
      var (count, channels) := filtered.value;
      var converted := ConvertInto(region, count, channels, scratch, Value(), region[..count]);
      if converted.Err? {
        return Err(converted.error);
      }
      var outputFrames := converted.value;
      OutChannelsAreChannels(Value());
      r := EncodeF32(scratch[..outputFrames * Max(outputSpec.channels, 1)],
           outputFrames, outputSpec, target, workspace.output);
    }

    /** process_workspace: the input is the decode region. */
    method ProcessWorkspace(workspace: PcmBuffer, frames: nat) returns (r: Result<nat, FilterError>)
      requires Valid() && workspace.Valid()
      requires workspace.filter != previousFrame && workspace.scratch != previousFrame
      modifies this`resamplePosition, this`hasPreviousFrame, previousFrame
      modifies workspace.filter, workspace.scratch, workspace.output
      ensures Valid()
      ensures var samples := frames * decodeSpec.channels;
              if samples > USIZE_MAX then
                r == Err(InputFormat) && History() == old(History())
                && workspace.filter[..] == old(workspace.filter[..])
                  && workspace.output[..] == old(workspace.output[..])
              else if samples > workspace.decode.Length then
                r == Err(WorkspaceTooSmall(samples, workspace.decode.Length)) && History() == old(History())
                && workspace.filter[..] == old(workspace.filter[..])
                  && workspace.output[..] == old(workspace.output[..])
              else
                var input := old(workspace.decode[..samples]);
                var (next, result) := old(Value()).Process(
                  input, frames, old(workspace.filter[..]), workspace.scratch.Length, workspace.output.Length, target);
                && History() == next
                && workspace.filter[..] == old(Value()).Region(input, frames, old(workspace.filter[..]))
                && match result
                   case Err(e) => r == Err(e) && workspace.output[..] == old(workspace.output[..])
                   case Ok(bytes) =>
                     && r == Ok(|bytes|) && |bytes| <= workspace.output.Length
                     && workspace.output[..|bytes|] == bytes
                     && workspace.output[|bytes|..] == old(workspace.output[|bytes|..])
    {
      hide Chain.Process, Chain.Region;
      var samples := frames * decodeSpec.channels;
      if samples > USIZE_MAX {
        return Err(InputFormat);
      }
      if samples > workspace.decode.Length {
        return Err(WorkspaceTooSmall(samples, workspace.decode.Length));
      }
      r := ProcessToOutput(workspace.decode[..samples], frames, workspace);
    }

    /** workspace_requirements: a workspace of these sizes is sized for that many samples. */
    method WorkspaceRequirements(inputSamples: nat) returns (processing: nat, outputBytes: nat)
      requires Valid()
      ensures (processing, outputBytes) == Value().Requirements(inputSamples)
      ensures forall region: nat, room: nat, length: nat :: Sized(Value(), inputSamples, region, room, length)
                <==> processing <= region && processing <= room && outputBytes <= length && outputBytes <= USIZE_MAX
    {
      var outputFrames := OutputFramesFor(inputSamples / Max(decodeSpec.channels, 1));
      var outputSamples := outputFrames * Max(outputSpec.channels, 1);
      processing, outputBytes := Max(inputSamples, outputSamples), outputFrames * outputSpec.BytesPerFrame();
    }

    /** ceil(n * out / in) + 2, the expression both sizing sites spell out. */
    method OutputFramesFor(inputFrames: nat) returns (frames: nat)
      requires Valid()
      ensures frames == Value().RoomFor(inputFrames)
    {
      frames := (inputFrames * outputSpec.sampleRate + decodeSpec.sampleRate - 1) / decodeSpec.sampleRate + 2;
    }
  }

  function Silence(): (p: Frame)
    ensures |p| == MAX_CHANNELS
  {
    seq(MAX_CHANNELS, _ => 0.0)
  }

  /** A filter's rewrite of its slice, in place. */
  method ApplyInPlace(f: Filter, slice: seq<real>, channels: U8, region: array<real>)
    requires |slice| <= region.Length
    modifies region
    ensures region[..] == Applied(f, slice, channels) + old(region[|slice|..])
  {
    for i := 0 to |slice|
      invariant region[..i] == Applied(f, slice, channels)[..i]
      invariant region[|slice|..] == old(region[|slice|..])
    {
      region[i] := f.sample(slice, channels, i);
    }
    assert region[..] == region[..|slice|] + region[|slice|..];
  }

  method CopyIn(input: seq<real>, region: array<real>)
    requires |input| <= region.Length
    modifies region
    ensures region[..] == input + old(region[|input|..])
  {
    for i := 0 to |input|
      invariant region[..i] == input[..i] && region[|input|..] == old(region[|input|..])
    {
      region[i] := input[i];
    }
    assert region[..] == region[..|input|] + region[|input|..];
  }

  /** Samples past the last whole frame are never read. */
  lemma WholeFrames(x: seq<real>, channels: nat)
    requires 0 < channels
    ensures |x| / channels * channels <= |x|
    ensures FramesOf(x[..|x| / channels * channels], channels) == FramesOf(x, channels)
  {
    var n := |x| / channels;
    DivModUnique(n * channels, channels, n, 0);
    forall f | 0 <= f < n
      ensures FrameAt(x[..n * channels], channels, f) == FrameAt(x, channels, f)
    {
      FrameInside(|x|, channels, f);
      FrameInside(n * channels, channels, f);
    }
  }

  lemma OutChannelsAreChannels(c: Chain)
    requires c.Valid()
    ensures c.OutChannels() == c.outputSpec.channels
  {
  }
}

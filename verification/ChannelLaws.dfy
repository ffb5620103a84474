/** What channel mapping and resampling do to the sound, in terms of the samples
    alone: crates/around-engine/src/filter_chain.rs:365-541. */
module ChannelLaws {
  import opened Arith
  import opened Pcm
  import opened Resampler
  import opened BlockLayout
  import opened SampleCodec
  import opened FilterChain
  import opened ChainLaws

  // ----------------------------------------------------------- channel mapping

  /** With as many channels on both sides nothing is touched. */
  lemma SameChannels(frame: Frame, c: Config)
    requires c.Valid() && |frame| == c.inChannels == c.outChannels
    ensures MappedFrame(frame, c) == frame
  {
    if |frame| == 1 {
      assert Sum(frame[..0]) == 0.0;
    }
  }

  /** Fewer channels, but not one, keep the same-numbered ones; more repeat the last. */
  lemma OtherChannels(frame: Frame, c: Config)
    requires c.Valid() && |frame| == c.inChannels && c.outChannels != 1
    ensures c.outChannels <= c.inChannels ==> MappedFrame(frame, c) == frame[..c.outChannels]
    ensures c.inChannels <= c.outChannels ==>
              && MappedFrame(frame, c)[..c.inChannels] == frame
              && forall ch | c.inChannels <= ch < c.outChannels :: MappedFrame(frame, c)[ch] == frame[c.inChannels - 1]
  {
  }

  lemma {:induction false} SumUpdated(frame: Frame, k: nat, v: real)
    requires k < |frame|
    ensures Sum(frame[k := v]) == Sum(frame) + v - frame[k]
  {
    var n := |frame| - 1;
    if k == n {
      assert frame[k := v][..n] == frame[..n];
    } else {
      SumUpdated(frame[..n], k, v);
      assert frame[k := v][..n] == frame[..n][k := v];
    }
  }

  lemma {:induction false} SumOfConstant(frame: Frame, v: real)
    requires forall k | 0 <= k < |frame| :: frame[k] == v
    ensures Sum(frame) == v * |frame| as real
  {
    if |frame| > 0 {
      SumOfConstant(frame[..|frame| - 1], v);
    }
  }

  /** A mono target hears every channel with the same weight: equal channels stay as
      they are, and a change of any one of n changes the output by an n-th of it. */
  lemma MonoIsTheMean(frame: Frame, c: Config, k: nat, v: real)
    requires c.Valid() && |frame| == c.inChannels && c.outChannels == 1 && k < |frame|
    ensures (forall i | 0 <= i < |frame| :: frame[i] == v) ==> MappedFrame(frame, c) == [v]
    ensures (MappedFrame(frame[k := v], c)[0] - MappedFrame(frame, c)[0]) * |frame| as real == v - frame[k]
  {
    SumUpdated(frame, k, v);
    var n := |frame| as real;
    Quotients(Sum(frame[k := v]), Sum(frame), n);
    if forall i | 0 <= i < |frame| :: frame[i] == v {
      SumOfConstant(frame, v);
      assert MappedFrame(frame, c)[0] * n == v * n;
      assert (MappedFrame(frame, c)[0] - v) * n == 0.0;
    }
  }

  lemma Quotients(a: real, b: real, n: real)
    requires n != 0.0
    ensures (a / n - b / n) * n == a - b
  {
    assert a / n * n == a && b / n * n == b;
  }

  /** Left and right become their average. */
  lemma StereoToMono(left: real, right: real, c: Config)
    requires c.Valid() && c.inChannels == 2 && c.outChannels == 1
    ensures MappedFrame([left, right], c) == [(left + right) / 2.0]
  {
    assert [left, right][..1] == [left] && [left][..0] == [];
    assert Sum([left]) == Sum([]) + left;
    assert Sum([left, right]) == left + right;
  }

  // -------------------------------------------------------------- resampling

  lemma SampleIsLerp(x: seq<Frame>, c: Config, k: nat, i: nat, part: nat, ch: nat)
    requires c.Valid() && Framed(x, c.inChannels) && k < FramesDue(|x|, c) && ch < c.outChannels
    requires i + 1 < |x| && (k * c.inRate) / c.outRate == i && (k * c.inRate) % c.outRate == part
    ensures |Resampled(x, c)[k]| == c.outChannels
    ensures Resampled(x, c)[k][ch]
         == Lerp(MappedFrame(x[i], c)[ch], MappedFrame(x[i + 1], c)[ch], part as real / c.outRate as real)
  {
    hide MapChannel, FramesDue, Lerp, Resampled;
    ResampledAt(x, k, c);
  }

  lemma PlaceOf(p: nat, d: nat, i: nat)
    requires 0 < d && i * d <= p < (i + 1) * d
    ensures p / d == i && p % d == p - i * d < d && (i + 1) * d - p == d - (p - i * d)
  {
    assert (i + 1) * d == i * d + d;
    DivModUnique(p, d, i, p - i * d);
  }

  /** Between frames i and i + 1 the output is their average weighted by nearness. */
  lemma WeightedNeighbours(x: seq<Frame>, c: Config, k: nat, i: nat)
    requires c.Valid() && Framed(x, c.inChannels) && k < FramesDue(|x|, c)
    requires i * c.outRate <= k * c.inRate < (i + 1) * c.outRate
    ensures i + 1 < |x| && |Resampled(x, c)[k]| == c.outChannels
    ensures forall ch | 0 <= ch < c.outChannels ::
              Resampled(x, c)[k][ch] * c.outRate as real
              == MappedFrame(x[i], c)[ch] * ((i + 1) * c.outRate - k * c.inRate) as real
               + MappedFrame(x[i + 1], c)[ch] * (k * c.inRate - i * c.outRate) as real
  {
    PlaceOf(k * c.inRate, c.outRate, i);
    ResampledAt(x, k, c);
    hide *;
    WeightedAt(x, c, k, i, k * c.inRate - i * c.outRate);
    assert (i + 1) * c.outRate - k * c.inRate == c.outRate - (k * c.inRate - i * c.outRate);
  }

  lemma WeightedAt(x: seq<Frame>, c: Config, k: nat, i: nat, part: nat)
    requires c.Valid() && Framed(x, c.inChannels) && k < FramesDue(|x|, c) && i + 1 < |x|
    requires (k * c.inRate) / c.outRate == i && (k * c.inRate) % c.outRate == part && part < c.outRate
    ensures |Resampled(x, c)[k]| == c.outChannels
    ensures forall ch | 0 <= ch < c.outChannels ::
              Resampled(x, c)[k][ch] * c.outRate as real
              == MappedFrame(x[i], c)[ch] * (c.outRate - part) as real + MappedFrame(x[i + 1], c)[ch] * part as real
  {
    ResampledAt(x, k, c);
    hide Resampled, MapChannel, FramesDue, Lerp, InputAt, MappedFrame;
    forall ch | 0 <= ch < c.outChannels
      ensures Resampled(x, c)[k][ch] * c.outRate as real
              == MappedFrame(x[i], c)[ch] * (c.outRate - part) as real + MappedFrame(x[i + 1], c)[ch] * part as real
    {
      SampleIsLerp(x, c, k, i, part, ch);
      LerpWeights(MappedFrame(x[i], c)[ch], MappedFrame(x[i + 1], c)[ch], part, c.outRate);
    }
  }

  lemma LerpWeights(a: real, b: real, part: nat, whole: nat)
    requires part <= whole && 0 < whole
    ensures Lerp(a, b, part as real / whole as real) * whole as real
         == a * (whole - part) as real + b * part as real
  {
    var w := whole as real;
    var t := part as real / w;
    assert t * w == part as real;
    assert Lerp(a, b, t) * w == a * w + (b - a) * (t * w);
  }

  /** A straight line on every channel stays one, at the new rate. */
  lemma LinesStayLines(x: seq<Frame>, c: Config, start: Frame, slope: Frame, k: nat, ch: nat)
    requires c.Valid() && c.inChannels == c.outChannels && Framed(x, c.inChannels) && k < FramesDue(|x|, c)
    requires |start| == |slope| == c.inChannels && ch < c.inChannels
    requires forall f | 0 <= f < |x| :: x[f][ch] == start[ch] + slope[ch] * f as real
    ensures Resampled(x, c)[k][ch] == start[ch] + slope[ch] * ((k * c.inRate) as real / c.outRate as real)
  {
    hide Resampled, MappedFrame, FramesDue;
    var i := WholePart(k * c.inRate, c.outRate);
    WeightedNeighbours(x, c, k, i);
    SameChannels(x[i], c);
    SameChannels(x[i + 1], c);
    LinePoint(Resampled(x, c)[k][ch], start[ch], slope[ch], i, k * c.inRate, c.outRate);
  }

  lemma WholePart(p: nat, d: nat) returns (i: nat)
    requires 0 < d
    ensures i * d <= p < (i + 1) * d
  {
    i := p / d;
    assert p == i * d + p % d;
    assert (i + 1) * d == i * d + d;
  }

  lemma LinePoint(y: real, a: real, b: real, i: nat, p: nat, d: nat)
    requires 0 < d && i * d <= p < (i + 1) * d
    requires y * d as real == (a + b * i as real) * ((i + 1) * d - p) as real
                            + (a + b * (i + 1) as real) * (p - i * d) as real
    ensures y == a + b * (p as real / d as real)
  {
    var q, w := p as real, d as real;
    var left, right := ((i + 1) * d - p) as real, (p - i * d) as real;
    var base := i as real;
    assert right == q - base * w && left == w - right;
    assert y * w == a * (left + right) + b * base * (left + right) + b * right;
    assert y * w == a * w + b * q;
    var t := q / w;
    assert t * w == q;
    assert (y - (a + b * t)) * w == 0.0;
  }

  /** A call that its capacity cuts short starts the next one at position zero, from the
      frame it had reached, or the block's first if it had not left the history. */
  lemma CutCall(st: State, input: seq<Frame>, capacity: nat, c: Config)
    requires c.Valid() && Framed(input, c.inChannels) && |input| > 0
    requires st.hasPrevious ==> |st.previous| == c.inChannels
    requires capacity < Pending(st.position, SequenceLength(st, input), c)
    ensures var reached := (st.position + capacity * c.inRate) / c.outRate;
            reached + 1 < SequenceLength(st, input)
            && (|Convert(st, input, capacity, c).1|, Convert(st, input, capacity, c).0)
               == (capacity, State(0, if st.hasPrevious then input[Max(reached, 1) - 1] else input[reached], true))
  {
    PendingInside(st.position, SequenceLength(st, input), c, capacity);
    PendingCounts(st.position, SequenceLength(st, input), c, capacity);
    assert SequenceLength(st, input) * c.outRate == (SequenceLength(st, input) - 1) * c.outRate + c.outRate;
  }

  // ------------------------------------------------------------ the whole chain

  /** Splitting into frames and joining again loses nothing. */
  lemma FlatFrames(x: seq<real>, frames: nat, channels: nat)
    requires 0 < channels && |x| == frames * channels
    ensures |FramesOf(x, channels)| == frames && Flat(FramesOf(x, channels), channels) == x
  {
    DivModUnique(|x|, channels, frames, 0);
    forall j | 0 <= j < |x| ensures Flat(FramesOf(x, channels), channels)[j] == x[j] {
      RowMajorSplit(j, frames, channels);
      FrameSample(x, channels, frames, j / channels, j % channels);
    }
  }

  /** Equal rates and channel counts: every frame leaves as it came. */
  lemma MappedSame(input: seq<Frame>, c: Config)
    requires c.Valid() && Framed(input, c.inChannels) && c.inChannels == c.outChannels
    ensures Mapped(input, c) == input
  {
    forall f | 0 <= f < |input| ensures Mapped(input, c)[f] == input[f] {
      SameChannels(input[f], c);
    }
  }

  /** A chain without filters between formats of equal rate and channel count only
      encodes: the device hears the samples it was given, each on its channel. */
  lemma PlainChainEncodes(ch: Chain, b: ChainLaws.Block, target: Target)
    requires CodecFed(ch) && ch.filters == [] && ch.SameRate()
    requires ch.outputSpec.channels == ch.decodeSpec.channels && Submittable(ch, b)
    ensures ch.Process(b.input, b.frames, b.region, b.room, b.outputLength, target)
         == (ch.history, Ok(EncodedBlock(b.input, b.frames, ch.outputSpec, target)))
  {
    var x, channels := b.input, ch.decodeSpec.channels;
    ProcessBlock(ch, b, target);
    assert |x| == b.frames * channels by {
      SubmittableFits(ch, b);
    }
    FlatFrames(x, b.frames, channels);
    MappedSame(FramesOf(x, channels), ch.ConfigFor(channels));
    assert Emitted(ch, x, b.room) == (ch.history, FramesOf(x, channels));
  }

  lemma {:induction false} BufferIsFiltered(filters: seq<Filter>, s: Stage)
    requires s.count <= |s.buffer| && Filtered(filters, s).Ok?
    ensures FilteredBuffer(filters, s) == Filtered(filters, s).value.buffer
    decreases |filters|
  {
    if |filters| > 0 {
      var slice := s.buffer[..s.count];
      var buffer := Applied(filters[0], slice, s.channels) + s.buffer[s.count..];
      var count := Min(filters[0].count(slice, s.channels), |buffer|);
      BufferIsFiltered(filters[1..], Stage(buffer, count, match filters[0].channelsOut case None => s.channels
                                                          case Some(n) => n));
    }
  }

  /** A refused block leaves the filter region alone; any other leaves there what the
      filters made of it, before what was there behind it. */
  lemma RegionAfter(ch: Chain, input: seq<real>, frames: nat, region: seq<real>)
    requires ch.Valid() && |input| <= USIZE_MAX
    ensures !CodecFed(ch) || |input| != frames * ch.decodeSpec.channels || |region| < |input| ==>
              ch.Region(input, frames, region) == region
    ensures CodecFed(ch) && |input| == frames * ch.decodeSpec.channels && |input| <= |region|
            && Preserving(ch.filters) ==>
              ch.Region(input, frames, region)
              == Through(ch.filters, input, ch.decodeSpec.channels) + region[|input|..]
  {
    if CodecFed(ch) && |input| == frames * ch.decodeSpec.channels && |input| <= |region| && Preserving(ch.filters) {
      var rest := region[|input|..];
      FilteredIsThrough(ch.filters, input, rest, ch.decodeSpec.channels);
      BufferIsFiltered(ch.filters, Stage(input + rest, |input|, ch.decodeSpec.channels));
    }
  }

  /** Filters work in their order, each on what the one before it left. */
  lemma {:induction false} FiltersInOrder(a: seq<Filter>, b: seq<Filter>, x: seq<real>, channels: U8)
    ensures Through(a + b, x, channels) == Through(b, Through(a, x, channels), channels)
    decreases |a|
  {
    if |a| == 0 {
      assert a + b == b;
    } else {
      assert (a + b)[1..] == a[1..] + b;
      FiltersInOrder(a[1..], b, Applied(a[0], x, channels), channels);
    }
  }

  /** One filter gives each sample what it makes of it. */
  lemma OneFilter(f: Filter, x: seq<real>, channels: U8, i: nat)
    requires i < |x|
    ensures Through([f], x, channels)[i] == f.sample(x, channels, i)
  {
    assert [f][1..] == [];
  }
}

/** Sample and byte placement inside a block: encode_f32 of
    crates/around-engine/src/filter_chain.rs, PlanarBuffer of
    crates/around-core/src/types.rs and normalize_byte_order of
    crates/around-core/src/audio_buffer.rs. */
module BlockLayout {
  import opened Arith
  import opened Pcm
  import opened Bytes
  import opened SampleCodec

  // ------------------------------------------------------------- planar order

  /** Channel after channel: slot ch * frames + f holds sample f * channels + ch. */
  function Planarized<T>(x: seq<T>, channels: nat, frames: nat): (p: seq<T>)
    requires |x| == frames * channels
    ensures |p| == |x|
  {
    seq(|x|, s requires 0 <= s < |x| => (PlanarSource(s, channels, frames); x[SampleOf(s, channels, frames)]))
  }

  /** Which sample a slot holds. */
  function SampleOf(s: nat, channels: nat, frames: nat): nat
    requires 0 < frames
  {
    (s % frames) * channels + s / frames
  }

  lemma PlanarSource(s: nat, channels: nat, frames: nat)
    requires s < frames * channels
    ensures 0 < frames && s / frames < channels && s % frames < frames
    ensures (s % frames) * channels + s / frames < frames * channels
  {
    RowMajorSplit(s, channels, frames);
    RowMajorBound(s % frames, s / frames, frames, channels);
  }

  /** Frame after frame, the inverse placement: the same exchange with the two
      counts swapped. */
  function Unplanarized<T>(p: seq<T>, channels: nat, frames: nat): (x: seq<T>)
    requires |p| == frames * channels
    ensures |x| == |p|
  {
    Planarized(p, frames, channels)
  }

  /** Sample (frame, channel) lies at slot channel * frames + frame, and nowhere
      else. */
  lemma PlanarPlacement<T>(x: seq<T>, channels: nat, frames: nat, frame: nat, channel: nat)
    requires |x| == frames * channels && frame < frames && channel < channels
    ensures channel * frames + frame < |x| && frame * channels + channel < |x|
    ensures Planarized(x, channels, frames)[channel * frames + frame] == x[frame * channels + channel]
    ensures forall s | 0 <= s < |x| && s / frames == channel && s % frames == frame :: s == channel * frames + frame
  {
    RowMajorBound(channel, frame, channels, frames);
    RowMajorBound(frame, channel, frames, channels);
  }

  /** Each placement undoes the other. */
  lemma PlanarRoundTrip<T>(x: seq<T>, channels: nat, frames: nat)
    requires |x| == frames * channels
    ensures Unplanarized(Planarized(x, channels, frames), channels, frames) == x
  {
    hide SampleOf;
    forall i | 0 <= i < |x|
      ensures Unplanarized(Planarized(x, channels, frames), channels, frames)[i] == x[i]
    {
      ThereAndBack(i, channels, frames);
    }
  }

  lemma ThereAndBack(i: nat, channels: nat, frames: nat)
    requires i < frames * channels
    ensures 0 < frames && 0 < channels && SampleOf(i, frames, channels) < channels * frames
    ensures SampleOf(SampleOf(i, frames, channels), channels, frames) == i
  {
    RowMajorSplit(i, frames, channels);
    RowMajorBound(i % channels, i / channels, channels, frames);
  }

  ghost predicate Filled(data: seq<real>, goal: seq<real>, channels: nat, frames: nat, upTo: nat) {
    |data| == |goal|
      && forall s | 0 <= s < |goal| && 0 < frames && SampleOf(s, channels, frames) < upTo :: data[s] == goal[s]
  }

  lemma FilledStep(before: seq<real>, goal: seq<real>, channels: nat, frames: nat, i: nat)
    requires |goal| == frames * channels && i < |goal| && Filled(before, goal, channels, frames, i)
    ensures 0 < channels && SampleOf(i, frames, channels) < |goal|
    ensures var slot := SampleOf(i, frames, channels);
            Filled(before[slot := goal[slot]], goal, channels, frames, i + 1)
  {
    PlanarSource(i, frames, channels);
    var slot := SampleOf(i, frames, channels);
    var after := before[slot := goal[slot]];
    forall s | 0 <= s < |goal| && 0 < frames && SampleOf(s, channels, frames) < i + 1
      ensures after[s] == goal[s]
    {
      if SampleOf(s, channels, frames) == i {
        SourceSlot(s, channels, frames);
      }
    }
  }

  /** A slot is recovered from the sample it holds. */
  lemma SourceSlot(s: nat, channels: nat, frames: nat)
    requires s < frames * channels
    ensures 0 < frames && 0 < channels
    ensures SampleOf(SampleOf(s, channels, frames), frames, channels) == s
  {
    PlanarSource(s, channels, frames);
    RowMajorSplit(s, channels, frames);
    RowMajorBound(s % frames, s / frames, frames, channels);
  }

  /** The planar buffer. `new` panics on zero channels or when the product does
      not fit a usize. */
  class PlanarBuffer {
    const data: array<real>
    const channels: nat
    const frames: nat

    ghost predicate Valid()
      reads this
    {
      0 < channels && data.Length == frames * channels
    }

    constructor (channels: nat, frames: nat)
      requires 0 < channels && channels * frames <= USIZE_MAX
      ensures Valid() && this.channels == channels && this.frames == frames && fresh(data)
      ensures forall i | 0 <= i < data.Length :: data[i] == 0.0
    {
      this.channels, this.frames := channels, frames;
      data := new real[frames * channels](_ => 0.0);
    }

    /** fill_from_interleaved: asserts the exact length. */
    method FillFromInterleaved(interleaved: seq<real>)
      requires Valid() && |interleaved| == frames * channels
      modifies data
      ensures Valid() && data[..] == Planarized(interleaved, channels, frames)
    {
      ghost var goal := Planarized(interleaved, channels, frames);
      for i := 0 to |interleaved|
        invariant Filled(data[..], goal, channels, frames, i)
      {
        RowMajorSplit(i, frames, channels);
        PlanarPlacement(interleaved, channels, frames, i / channels, i % channels);
        FilledStep(data[..], goal, channels, frames, i);
        ghost var before := data[..];
        data[(i % channels) * frames + i / channels] := interleaved[i];
        assert data[..] == before[SampleOf(i, frames, channels) := interleaved[i]];
      }
      AllFilled(data[..], goal, channels, frames);
    }

    /** write_interleaved: a longer output keeps its tail. */
    method WriteInterleaved(interleaved: array<real>)
      requires Valid() && interleaved != data && interleaved.Length >= frames * channels
      modifies interleaved
      ensures interleaved[..frames * channels] == Unplanarized(data[..], channels, frames)
      ensures interleaved[frames * channels..] == old(interleaved[frames * channels..])
    {
      ghost var n := frames * channels;
      ghost var goal := Unplanarized(data[..], channels, frames);
      for ch := 0 to channels
        invariant forall i | 0 <= i < n && i % channels < ch :: interleaved[i] == goal[i]
        invariant interleaved[n..] == old(interleaved[n..])
      {
        for frame := 0 to frames
          invariant forall i | 0 <= i < n && i % channels < ch :: interleaved[i] == goal[i]
          invariant forall i | 0 <= i < n && i % channels == ch && i / channels < frame :: interleaved[i] == goal[i]
          invariant interleaved[n..] == old(interleaved[n..])
        {
          RowMajorBound(ch, frame, channels, frames);
          RowMajorBound(frame, ch, frames, channels);
          WriteOne(interleaved, goal, frame * channels + ch, data[ch * frames + frame], n);
          forall i | 0 <= i < n && i % channels == ch && i / channels < frame + 1
            ensures interleaved[i] == goal[i]
          {
            RowMajorSplit(i, frames, channels);
          }
        }
        forall i | 0 <= i < n && i % channels < ch + 1
          ensures interleaved[i] == goal[i]
        {
          RowMajorSplit(i, frames, channels);
        }
      }
      assert forall i | 0 <= i < n :: i % channels < channels;
    }
  }

  method WriteOne(a: array<real>, ghost goal: seq<real>, at: nat, value: real, ghost n: nat)
    requires at < n == |goal| && n <= a.Length && goal[at] == value
    modifies a
    ensures a[at] == goal[at] && a[n..] == old(a[n..])
    ensures forall i | 0 <= i < n && old(a[i]) == goal[i] :: a[i] == goal[i]
  {
    a[at] := value;
  }

  lemma AllFilled(data: seq<real>, goal: seq<real>, channels: nat, frames: nat)
    requires |goal| == frames * channels && Filled(data, goal, channels, frames, |goal|)
    ensures data == goal
  {
    forall s | 0 <= s < |goal|
      ensures data[s] == goal[s]
    {
      PlanarSource(s, channels, frames);
    }
  }

  // ------------------------------------------------------------ byte encoding

  /** How one sample is written: always the same number of bytes. */
  type Code<!T> = T -> seq<Byte>

  ghost predicate Fixed<T(!new)>(code: Code<T>, w: nat) {
    0 < w && forall x: T :: |code(x)| == w
  }

  /** The bytes of samples in order, each at its own width. */
  function Serialize<T(!new)>(xs: seq<T>, code: Code<T>, w: nat): (b: seq<Byte>)
    requires Fixed(code, w)
    ensures |b| == |xs| * w
  {
    seq(|xs| * w, j requires 0 <= j < |xs| * w => (RowMajorSplit(j, |xs|, w); code(xs[j / w])[j % w]))
  }

  lemma SerializeAt<T(!new)>(xs: seq<T>, code: Code<T>, w: nat, i: nat, k: nat)
    requires Fixed(code, w) && i < |xs| && k < w
    ensures i * w + k < |Serialize(xs, code, w)|
    ensures Serialize(xs, code, w)[i * w + k] == code(xs[i])[k]
  {
    RowMajorBound(i, k, |xs|, w);
  }

  lemma SerializeConcat<T(!new)>(xs: seq<T>, ys: seq<T>, code: Code<T>, w: nat)
    requires Fixed(code, w)
    ensures Serialize(xs + ys, code, w) == Serialize(xs, code, w) + Serialize(ys, code, w)
  {
    assert (|xs| + |ys|) * w == |xs| * w + |ys| * w;
    forall j | 0 <= j < (|xs| + |ys|) * w
      ensures Serialize(xs + ys, code, w)[j] == (Serialize(xs, code, w) + Serialize(ys, code, w))[j]
    {
      if j < |xs| * w {
        RowMajorSplit(j, |xs|, w);
        SerializeAt(xs + ys, code, w, j / w, j % w);
      } else {
        SerializeRight(xs, ys, code, w, j - |xs| * w);
      }
    }
  }

  lemma SerializeRight<T(!new)>(xs: seq<T>, ys: seq<T>, code: Code<T>, w: nat, j: nat)
    requires Fixed(code, w) && j < |ys| * w
    ensures |xs| * w + j < |Serialize(xs + ys, code, w)|
    ensures Serialize(xs + ys, code, w)[|xs| * w + j] == Serialize(ys, code, w)[j]
  {
    RowMajorSplit(j, |ys|, w);
    var i, k := j / w, j % w;
    SerializeAt(ys, code, w, i, k);
    SerializeAt(xs + ys, code, w, |xs| + i, k);
    Distribute(|xs|, i, w);
  }

  lemma Distribute(a: nat, b: nat, w: nat)
    ensures (a + b) * w == a * w + b * w
  {
  }

  lemma SerializeOne<T(!new)>(x: T, code: Code<T>, w: nat)
    requires Fixed(code, w)
    ensures Serialize([x], code, w) == code(x)
  {
    forall k | 0 <= k < w
      ensures Serialize([x], code, w)[k] == code(x)[k]
    {
      SerializeAt([x], code, w, 0, k);
    }
  }

  /** write_sample for a target format. */
  function Coder(spec: SampleSpec, target: Target): Code<real> {
    x => SampleBytes(x, spec.encoding, spec.byteOrder, target)
  }

  lemma CoderFixed(spec: SampleSpec, target: Target)
    ensures Fixed(Coder(spec, target), spec.BytesPerSample())
  {
  }

  /** Samples in the order the target layout stores them. */
  function Arranged(samples: seq<real>, frames: nat, spec: SampleSpec): (p: seq<real>)
    requires |samples| == frames * spec.channels
    ensures |p| == |samples|
  {
    if spec.interleave == Planar then Planarized(samples, spec.channels, frames) else samples
  }

  /** encode_f32 on a block of interleaved samples. */
  function EncodedBlock(samples: seq<real>, frames: nat, spec: SampleSpec, target: Target): (b: seq<Byte>)
    requires |samples| == frames * spec.channels
    ensures |b| == frames * spec.BytesPerFrame()
  {
    FrameBytes(frames, spec);
    CoderFixed(spec, target);
    Serialize(Arranged(samples, frames, spec), Coder(spec, target), spec.BytesPerSample())
  }

  lemma FrameBytes(frames: nat, spec: SampleSpec)
    ensures frames * spec.BytesPerFrame() == frames * spec.channels * spec.BytesPerSample()
  {
    assert frames * (spec.BytesPerSample() * spec.channels) == frames * spec.channels * spec.BytesPerSample();
  }

  /** The slot of one sample in the encoded block, counted in samples. */
  function SlotOf(spec: SampleSpec, frames: nat, frame: nat, channel: nat): nat {
    if spec.interleave == Planar then channel * frames + frame else frame * spec.channels + channel
  }

  /** Where each sample's bytes go, in both layouts. */
  lemma EncodedByte(samples: seq<real>, frames: nat, spec: SampleSpec, target: Target, frame: nat, channel: nat, k: nat)
    requires |samples| == frames * spec.channels
    requires frame < frames && channel < spec.channels && k < spec.BytesPerSample()
    ensures frame * spec.channels + channel < |samples|
    ensures SlotOf(spec, frames, frame, channel) < |samples|
    ensures spec.interleave == Planar ==> SlotOf(spec, frames, frame, channel) == channel * frames + frame
    ensures spec.interleave == Interleaved ==> SlotOf(spec, frames, frame, channel) == frame * spec.channels + channel
    ensures SlotOf(spec, frames, frame, channel) * spec.BytesPerSample() + k < frames * spec.BytesPerFrame()
    ensures EncodedBlock(samples, frames, spec, target)[
              SlotOf(spec, frames, frame, channel) * spec.BytesPerSample() + k]
            == SampleBytes(samples[frame * spec.channels + channel], spec.encoding, spec.byteOrder, target)[k]
  {
    PlanarPlacement(samples, spec.channels, frames, frame, channel);
    CoderFixed(spec, target);
    SerializeAt(Arranged(samples, frames, spec), Coder(spec, target), spec.BytesPerSample(),
                SlotOf(spec, frames, frame, channel), k);
    FrameBytes(frames, spec);
  }

  /** Byte j of the block is byte k of sample (frame, channel). */
  ghost predicate Owns(spec: SampleSpec, frames: nat, frame: nat, channel: nat, k: nat, j: nat) {
    frame < frames && channel < spec.channels && k < spec.BytesPerSample()
    && j == SlotOf(spec, frames, frame, channel) * spec.BytesPerSample() + k
  }

  /** Every byte of the block belongs to some sample ... */
  lemma ByteOwner(frames: nat, spec: SampleSpec, j: nat) returns (frame: nat, channel: nat, k: nat)
    requires j < frames * spec.BytesPerFrame()
    ensures Owns(spec, frames, frame, channel, k, j)
  {
    FrameBytes(frames, spec);
    RowMajorSplit(j, frames * spec.channels, spec.BytesPerSample());
    frame, channel := SlotOwner(frames, spec, j / spec.BytesPerSample());
    k := j % spec.BytesPerSample();
  }

  lemma SlotOwner(frames: nat, spec: SampleSpec, slot: nat) returns (frame: nat, channel: nat)
    requires slot < frames * spec.channels
    ensures frame < frames && channel < spec.channels && SlotOf(spec, frames, frame, channel) == slot
  {
    if spec.interleave == Planar {
      channel, frame := SplitSlot(slot, spec.channels, frames);
    } else {
      frame, channel := SplitSlot(slot, frames, spec.channels);
    }
  }

  lemma SplitSlot(slot: nat, rows: nat, columns: nat) returns (row: nat, column: nat)
    requires slot < rows * columns
    ensures row < rows && column < columns && slot == row * columns + column
  {
    RowMajorSplit(slot, rows, columns);
    row, column := slot / columns, slot % columns;
  }

  /** ... and to no other. */
  lemma OwnerUnique(spec: SampleSpec, frames: nat, f: nat, c: nat, i: nat, f': nat, c': nat, i': nat, j: nat)
    requires Owns(spec, frames, f, c, i, j) && Owns(spec, frames, f', c', i', j)
    ensures f == f' && c == c' && i == i'
  {
    OwnerComputed(spec, frames, f, c, i, j);
    OwnerComputed(spec, frames, f', c', i', j);
  }

  lemma OwnerComputed(spec: SampleSpec, frames: nat, f: nat, c: nat, i: nat, j: nat)
    requires Owns(spec, frames, f, c, i, j)
    ensures i == j % spec.BytesPerSample()
    ensures var slot := j / spec.BytesPerSample();
            if spec.interleave == Planar then c == slot / frames && f == slot % frames
            else f == slot / spec.channels && c == slot % spec.channels
  {
    RowMajorBound(f, c, frames, spec.channels);
    RowMajorBound(c, f, spec.channels, frames);
    DivModUnique(j, spec.BytesPerSample(), SlotOf(spec, frames, f, c), i);
  }

  datatype FilterError =
    | InputFormat
    | OutputTooSmall(required: nat, available: nat)
    | WorkspaceTooSmall(required: nat, available: nat)

  /** write_sample into out[at..]: the sample's bytes and nothing else. */
  method WriteSample<T(!new)>(value: T, code: Code<T>, ghost w: nat, out: array<Byte>, at: nat)
    requires Fixed(code, w) && at + w <= out.Length
    modifies out
    ensures out[at..at + w] == code(value)
    ensures out[..at] == old(out[..at])
    ensures out[at + w..] == old(out[at + w..])
  {
    var bytes := code(value);
    for i := 0 to |bytes|
      invariant out[at..at + i] == bytes[..i]
      invariant out[..at] == old(out[..at])
      invariant out[at + w..] == old(out[at + w..])
    {
      out[at + i] := bytes[i];
    }
  }

  /** Appends the next sample of `arranged` to the bytes already written. */
  method WriteNext<T(!new)>(ghost arranged: seq<T>, ghost done: nat, value: T, code: Code<T>, w: nat,
                     out: array<Byte>, at: nat)
    requires Fixed(code, w) && done < |arranged| && value == arranged[done]
    requires at == done * w && |arranged| * w <= out.Length && at <= |arranged| * w
    requires out[..at] == Serialize(arranged[..done], code, w)
    modifies out
    ensures (done + 1) * w <= |arranged| * w
    ensures out[..(done + 1) * w] == Serialize(arranged[..done + 1], code, w)
    ensures out[|arranged| * w..] == old(out[|arranged| * w..])
  {
    MulMonotone(done + 1, |arranged|, w);
    assert (done + 1) * w == at + w;
    WriteSample(value, code, w, out, at);
    SerializeConcat(arranged[..done], [value], code, w);
    SerializeOne(value, code, w);
    assert arranged[..done + 1] == arranged[..done] + [value];
    assert out[..at + w] == out[..at] + out[at..at + w];
    assert out[at + w..][|arranged| * w - (at + w)..] == out[|arranged| * w..];
    assert old(out[at + w..][|arranged| * w - (at + w)..]) == old(out[|arranged| * w..]);
  }

  method EncodeInterleaved<T(!new)>(samples: seq<T>, code: Code<T>, w: nat, output: array<Byte>)
    requires Fixed(code, w) && |samples| * w <= output.Length
    modifies output
    ensures output[..|samples| * w] == Serialize(samples, code, w)
    ensures output[|samples| * w..] == old(output[|samples| * w..])
  {
    var index := 0;
    while index < |samples|
      invariant 0 <= index <= |samples| && index * w <= |samples| * w
      invariant output[..index * w] == Serialize(samples[..index], code, w)
      invariant output[|samples| * w..] == old(output[|samples| * w..])
    {
      WriteNext(samples, index, samples[index], code, w, output, index * w);
      index := index + 1;
    }
    assert samples[..|samples|] == samples;
  }

  method EncodePlanar<T(!new)>(samples: seq<T>, channels: nat, frames: nat, code: Code<T>, w: nat, output: array<Byte>)
    requires |samples| == frames * channels
    requires Fixed(code, w) && |samples| * w <= output.Length
    modifies output
    ensures output[..|samples| * w] == Serialize(Planarized(samples, channels, frames), code, w)
    ensures output[|samples| * w..] == old(output[|samples| * w..])
  {
    ghost var arranged := Planarized(samples, channels, frames);
    for channel := 0 to channels
      invariant channel * frames <= |samples| && channel * frames * w <= |samples| * w
      invariant output[..channel * frames * w] == Serialize(arranged[..channel * frames], code, w)
      invariant output[|samples| * w..] == old(output[|samples| * w..])
    {
      assert (channel + 1) * frames == channel * frames + frames;
      for frame := 0 to frames
        invariant channel * frames + frame <= |samples| && (channel * frames + frame) * w <= |samples| * w
        invariant output[..(channel * frames + frame) * w] == Serialize(arranged[..channel * frames + frame], code, w)
        invariant output[|samples| * w..] == old(output[|samples| * w..])
      {
        PlanarPlacement(samples, channels, frames, frame, channel);
        WriteNext(arranged, channel * frames + frame, samples[frame * channels + channel], code, w, output,
                  (channel * frames + frame) * w);
      }
    }
    assert channels * frames == frames * channels;
    assert arranged[..|arranged|] == arranged;
  }

  /** encode_f32: the whole block or nothing, and no byte past it. */
  method EncodeF32(samples: seq<real>, frames: nat, spec: SampleSpec, target: Target, output: array<Byte>)
    returns (r: Result<nat, FilterError>)
    requires |samples| == frames * spec.channels
    modifies output
    ensures r == EncodeResult(frames, spec, output.Length)
    ensures r.Ok? ==> output[..r.value] == EncodedBlock(samples, frames, spec, target)
    ensures r.Ok? ==> output[r.value..] == old(output[r.value..])
    ensures r.Err? ==> output[..] == old(output[..])
  {
    var required := frames * spec.BytesPerFrame();
    if required > USIZE_MAX {
      return Err(OutputTooSmall(USIZE_MAX, output.Length));
    }
    if output.Length < required {
      return Err(OutputTooSmall(required, output.Length));
    }
    FrameBytes(frames, spec);
    CoderFixed(spec, target);
    if spec.interleave == Planar {
      EncodePlanar(samples, spec.channels, frames, Coder(spec, target), spec.BytesPerSample(), output);
    } else {
      EncodeInterleaved(samples, Coder(spec, target), spec.BytesPerSample(), output);
    }
    return Ok(required);
  }

  /** When encode_f32 has room, and what it reports. */
  function EncodeResult(frames: nat, spec: SampleSpec, available: nat): Result<nat, FilterError> {
    var required := frames * spec.BytesPerFrame();
    if required > USIZE_MAX then Err(OutputTooSmall(USIZE_MAX, available))
    else if available < required then Err(OutputTooSmall(required, available))
    else Ok(required)
  }

  // ---------------------------------------------------------- normalization

  datatype AlignmentError = FrameAlignment(bytes: nat, frameBytes: nat)

  /** Every w-byte sample reversed. */
  function Swapped(data: seq<Byte>, w: nat): (r: seq<Byte>)
    requires 0 < w && |data| % w == 0
    ensures |r| == |data|
  {
    seq(|data|, j requires 0 <= j < |data| => (SwapBound(j, |data|, w); data[j / w * w + (w - 1 - j % w)]))
  }

  lemma SwapBound(j: nat, n: nat, w: nat)
    requires 0 < w && n % w == 0 && j < n
    ensures 0 <= j / w * w + (w - 1 - j % w) < n
  {
    assert n == n / w * w;
    RowMajorSplit(j, n / w, w);
    RowMajorBound(j / w, w - 1 - j % w, n / w, w);
  }

  /** normalize_byte_order on a whole buffer. */
  function Normalized(spec: SampleSpec, data: seq<Byte>, host: Host): Result<seq<Byte>, AlignmentError> {
    var w := spec.BytesPerSample();
    if IsNative(spec.byteOrder, host) || w == 1 then Ok(data)
    else if |data| % w != 0 then Err(FrameAlignment(|data|, w))
    else Ok(Swapped(data, w))
  }

  /** Native or single-byte samples are left alone whatever their length; others must be
      whole, ... */
  lemma NormalizeAnswers(spec: SampleSpec, data: seq<Byte>, host: Host)
    ensures IsNative(spec.byteOrder, host) || spec.BytesPerSample() == 1 ==> Normalized(spec, data, host) == Ok(data)
    ensures !IsNative(spec.byteOrder, host) && spec.BytesPerSample() > 1 && |data| % spec.BytesPerSample() != 0 ==>
              Normalized(spec, data, host) == Err(FrameAlignment(|data|, spec.BytesPerSample()))
  {
  }

  /** ... and then each is reversed where it stands. */
  lemma NormalizedByte(spec: SampleSpec, data: seq<Byte>, host: Host, samples: nat, i: nat, k: nat)
    requires !IsNative(spec.byteOrder, host) && |data| == samples * spec.BytesPerSample()
    requires i < samples && k < spec.BytesPerSample()
    ensures var w := spec.BytesPerSample();
            && i * w + k < |data| && i * w + (w - 1 - k) < |data|
            && Normalized(spec, data, host).Ok? && |Normalized(spec, data, host).value| == |data|
            && Normalized(spec, data, host).value[i * w + k] == data[i * w + (w - 1 - k)]
  {
    var w := spec.BytesPerSample();
    DivModUnique(|data|, w, samples, 0);
    RowMajorBound(i, k, samples, w);
    RowMajorBound(i, w - 1 - k, samples, w);
  }

  lemma OppositeOrder(spec: SampleSpec, target: Target, x: real)
    requires !IsNative(spec.byteOrder, target.host)
    ensures Coder(spec, target)(x) == Reverse(Coder(spec.(byteOrder := Native), target)(x))
  {
    OppositeBytes(x, spec.encoding, spec.byteOrder, target);
  }

  lemma OppositeBytes(x: real, enc: PcmEncoding, order: ByteOrder, target: Target)
    requires !IsNative(order, target.host)
    ensures SampleBytes(x, enc, order, target) == Reverse(SampleBytes(x, enc, Native, target))
  {
    var v := ClampUnit(x);
    if enc == F32 {
      ReverseTwice(target.floats.f32(v));
    } else if enc == F64 {
      ReverseTwice(target.floats.f64(v));
    } else {
      var n, w := IntegerAsU128(v, enc), enc.BytesPerSample();
      assert SampleBytes(x, enc, order, target) == WriteInteger(n, w, LittleFirst(order, target.host));
      OppositeInteger(n, w);
    }
  }

  lemma OppositeInteger(n: nat, w: nat)
    requires w <= 16
    ensures WriteInteger(n, w, false) == Reverse(WriteInteger(n, w, true))
    ensures WriteInteger(n, w, true) == Reverse(WriteInteger(n, w, false))
  {
    ReverseTwice(WriteInteger(n, w, true));
  }

  lemma SameOrder(spec: SampleSpec, target: Target, x: real)
    requires IsNative(spec.byteOrder, target.host)
    ensures Coder(spec, target)(x) == Coder(spec.(byteOrder := Native), target)(x)
  {
  }

  lemma SerializeSame<T(!new)>(xs: seq<T>, a: Code<T>, b: Code<T>, w: nat)
    requires Fixed(a, w) && Fixed(b, w) && forall x :: a(x) == b(x)
    ensures Serialize(xs, a, w) == Serialize(xs, b, w)
  {
  }

  /** If one code reverses the other's bytes, swapping turns one block into the
      other. */
  lemma SwapSerialized<T(!new)>(xs: seq<T>, a: Code<T>, b: Code<T>, w: nat)
    requires Fixed(a, w) && Fixed(b, w) && forall x :: a(x) == Reverse(b(x))
    ensures (|xs| * w) % w == 0
    ensures Swapped(Serialize(xs, a, w), w) == Serialize(xs, b, w)
    ensures w == 1 ==> Serialize(xs, a, w) == Serialize(xs, b, w)
  {
    DivModUnique(|xs| * w, w, |xs|, 0);
    var data, goal := Serialize(xs, a, w), Serialize(xs, b, w);
    forall j | 0 <= j < |data|
      ensures Swapped(data, w)[j] == goal[j] && (w == 1 ==> data[j] == goal[j])
    {
      RowMajorSplit(j, |xs|, w);
      SerializeAt(xs, a, w, j / w, w - 1 - j % w);
      SerializeAt(xs, b, w, j / w, j % w);
    }
  }

  /** Main theorem of byte order: a block encoded in the non-native order and
      normalized is the block encoded natively, in either layout. */
  lemma NormalizeUndoesByteOrder(samples: seq<real>, frames: nat, spec: SampleSpec, target: Target)
    requires |samples| == frames * spec.channels
    ensures Normalized(spec, EncodedBlock(samples, frames, spec, target), target.host)
         == Ok(EncodedBlock(samples, frames, spec.(byteOrder := Native), target))
  {
    var native := spec.(byteOrder := Native);
    var xs := Arranged(samples, frames, spec);
    CoderFixed(spec, target);
    CoderFixed(native, target);
    FrameBytes(frames, spec);
    if IsNative(spec.byteOrder, target.host) {
      forall x { SameOrder(spec, target, x); }
      SerializeSame(xs, Coder(spec, target), Coder(native, target), spec.BytesPerSample());
    } else {
      forall x { OppositeOrder(spec, target, x); }
      SwapSerialized(xs, Coder(spec, target), Coder(native, target), spec.BytesPerSample());
    }
  }

  /** The planar placement of encode_f32 is PlanarBuffer's: encoding a block for
      a planar target is encoding the filled buffer sample after sample. */
  lemma PlanarEncodingIsPlanarBuffer(samples: seq<real>, frames: nat, spec: SampleSpec, target: Target)
    requires |samples| == frames * spec.channels && spec.interleave == Planar
    ensures EncodedBlock(samples, frames, spec, target)
         == EncodedBlock(Planarized(samples, spec.channels, frames), frames, spec.(interleave := Interleaved), target)
  {
    var other := spec.(interleave := Interleaved);
    CoderFixed(spec, target);
    CoderFixed(other, target);
    SerializeSame(Planarized(samples, spec.channels, frames), Coder(spec, target), Coder(other, target),
                  spec.BytesPerSample());
  }

  /** normalize_byte_order: samples are reversed in place, in steps of the width. */
  method NormalizeByteOrder(spec: SampleSpec, data: array<Byte>, host: Host) returns (r: Result<(), AlignmentError>)
    modifies data
    ensures var n := Normalized(spec, old(data[..]), host);
            if n.Ok? then r == Ok(()) && data[..] == n.value else r == Err(n.error) && data[..] == old(data[..])
  {
    if IsNative(spec.byteOrder, host) || spec.BytesPerSample() == 1 {
      return Ok(());
    }
    var w := spec.BytesPerSample();
    if data.Length % w != 0 {
      return Err(FrameAlignment(data.Length, w));
    }
    ghost var was := data[..];
    var n := data.Length / w;
    assert n * w == data.Length;
    for i := 0 to n
      invariant i * w <= data.Length
      invariant data[..i * w] == Swapped(was, w)[..i * w]
      invariant data[i * w..] == was[i * w..]
    {
      MulMonotone(i + 1, n, w);
      assert (i + 1) * w == i * w + w;
      assert data[i * w..][..w] == data[i * w..i * w + w] && was[i * w..][..w] == was[i * w..i * w + w];
      ghost var before := data[..];
      ReverseChunk(data, i * w, w);
      assert data[i * w + w..] == before[i * w..][w..];
      ChunkSwapped(was, data[..], i, w);
    }
    return Ok(());
  }

  /** Reversing chunk i extends the swapped prefix by it. */
  lemma ChunkSwapped(was: seq<Byte>, now: seq<Byte>, i: nat, w: nat)
    requires 0 < w && |now| == |was| && |was| % w == 0 && i * w + w <= |was|
    requires now[..i * w] == Swapped(was, w)[..i * w]
    requires now[i * w..i * w + w] == Reverse(was[i * w..i * w + w])
    ensures now[..i * w + w] == Swapped(was, w)[..i * w + w]
  {
    forall j | i * w <= j < i * w + w
      ensures now[j] == Swapped(was, w)[j]
    {
      DivModUnique(j, w, i, j - i * w);
      SwapBound(j, |was|, w);
      assert now[i * w..i * w + w][j - i * w] == Reverse(was[i * w..i * w + w])[j - i * w];
    }
    assert forall j | 0 <= j < i * w :: now[j] == now[..i * w][j] && Swapped(was, w)[j] == Swapped(was, w)[..i * w][j];
  }

  /** slice::reverse on data[at..at + w]. */
  method ReverseChunk(data: array<Byte>, at: nat, w: nat)
    requires at + w <= data.Length
    modifies data
    ensures data[at..at + w] == Reverse(old(data[at..at + w]))
    ensures data[..at] == old(data[..at]) && data[at + w..] == old(data[at + w..])
  {
    var i, j := at, at + w;
    while j - i > 1
      invariant at <= i <= j + 1 && j <= at + w && i - at == at + w - j
      invariant forall k | at <= k < i || j <= k < at + w :: data[k] == old(data[2 * at + w - 1 - k])
      invariant forall k | i <= k < j :: data[k] == old(data[k])
      invariant data[..at] == old(data[..at]) && data[at + w..] == old(data[at + w..])
    {
      data[i], data[j - 1] := data[j - 1], data[i];
      i, j := i + 1, j - 1;
    }
    ghost var chunk, goal := data[at..at + w], Reverse(old(data[at..at + w]));
    forall k | 0 <= k < w
      ensures chunk[k] == goal[k]
    {
      assert data[at + k] == old(data[2 * at + w - 1 - (at + k)]);
    }
  }
}

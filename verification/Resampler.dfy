/** The stateful linear resampler of crates/around-engine/src/filter_chain.rs,
    over exact rationals: a position is a numerator over the output rate, one
    output frame advances it by the input rate, its whole part is the base frame
    and its remainder the interpolation fraction. Samples are reals. */
module Resampler {
  import opened Arith

  type Frame = seq<real>

  /** Input and output rate and the channel counts on both sides. */
  datatype Config = Config(inRate: nat, outRate: nat, inChannels: nat, outChannels: nat)
  {
    predicate Valid() { 0 < inRate && 0 < outRate && 0 < inChannels && 0 < outChannels }
  }

  /** resample_position, previous_frame and has_previous_frame. */
  datatype State = State(position: nat, previous: Frame, hasPrevious: bool)

  const Fresh := State(0, [], false)

  predicate Framed(x: seq<Frame>, channels: nat) {
    forall f | 0 <= f < |x| :: |x[f]| == channels
  }

  // ---------------------------------------------------------------- channels

  function Sum(frame: Frame): real {
    if |frame| == 0 then 0.0 else Sum(frame[..|frame| - 1]) + frame[|frame| - 1]
  }

  /** Channel mapping of one frame: the mean for a mono target, otherwise the
      same-numbered channel, the last one repeating. */
  function MapChannel(frame: Frame, channel: nat, outChannels: nat): real
    requires 0 < |frame|
  {
    if outChannels == 1 then Sum(frame) / |frame| as real
    else frame[Min(channel, |frame| - 1)]
  }

  function Lerp(a: real, b: real, t: real): real {
    a + (b - a) * t
  }

  function LerpFrame(a: Frame, b: Frame, t: real): (r: Frame)
    requires |a| == |b|
    ensures |r| == |a|
  {
    seq(|a|, c requires 0 <= c < |a| => Lerp(a[c], b[c], t))
  }

  lemma {:induction false} SumLerp(a: Frame, b: Frame, t: real)
    requires |a| == |b|
    ensures Sum(LerpFrame(a, b, t)) == Lerp(Sum(a), Sum(b), t)
  {
    if |a| > 0 {
      var n := |a| - 1;
      SumLerp(a[..n], b[..n], t);
      assert LerpFrame(a, b, t)[..n] == LerpFrame(a[..n], b[..n], t);
    }
  }

  /** Interpolating first and mapping channels after, as the kernel does, is the
      same as mapping the two frames and interpolating the results. */
  lemma MapLerp(a: Frame, b: Frame, t: real, channel: nat, outChannels: nat)
    requires 0 < |a| == |b|
    ensures MapChannel(LerpFrame(a, b, t), channel, outChannels)
         == Lerp(MapChannel(a, channel, outChannels), MapChannel(b, channel, outChannels), t)
  {
    if outChannels == 1 {
      SumLerp(a, b, t);
      var n := |a| as real;
      LerpScale(Sum(a), Sum(b), t, n);
    }
  }

  lemma LerpScale(a: real, b: real, t: real, n: real)
    requires n != 0.0
    ensures Lerp(a, b, t) / n == Lerp(a / n, b / n, t)
  {
    var p, q := a / n, b / n;
    assert a == p * n && b == q * n;
    assert Lerp(a, b, t) == Lerp(p, q, t) * n;
  }

  // ----------------------------------------------------- what a listener hears

  /** The channel-mapped input at time position / outRate: the reference the
      resampler is judged by. It knows nothing of blocks or history. */
  function InputAt(x: seq<Frame>, position: nat, c: Config): (r: Frame)
    requires c.Valid() && Framed(x, c.inChannels)
    requires position / c.outRate + 1 < |x|
    ensures |r| == c.outChannels
  {
    var base := position / c.outRate;
    var t := (position % c.outRate) as real / c.outRate as real;
    seq(c.outChannels, ch requires 0 <= ch < c.outChannels =>
      Lerp(MapChannel(x[base], ch, c.outChannels), MapChannel(x[base + 1], ch, c.outChannels), t))
  }

  /** How many output frames n input frames determine. */
  function FramesDue(n: nat, c: Config): nat
    requires c.Valid()
  {
    if n == 0 then 0 else CeilDiv((n - 1) * c.outRate, c.inRate)
  }

  lemma FramesDueCounts(n: nat, c: Config, k: nat)
    requires c.Valid()
    ensures k < FramesDue(n, c) <==> 0 < n && k * c.inRate < (n - 1) * c.outRate
    ensures k < FramesDue(n, c) ==> (k * c.inRate) / c.outRate + 1 < n
  {
    if n > 0 {
      CeilDivCounts((n - 1) * c.outRate, c.inRate, k);
      var p := k * c.inRate;
      assert p == (p / c.outRate) * c.outRate + p % c.outRate;
      if n - 1 <= p / c.outRate {
        MulMonotone(n - 1, p / c.outRate, c.outRate);
      }
    }
  }

  /** The whole output of an input stream: frame k is the input at time
      k * inRate / outRate. */
  function Resampled(x: seq<Frame>, c: Config): (r: seq<Frame>)
    requires c.Valid() && Framed(x, c.inChannels)
    ensures |r| == FramesDue(|x|, c)
  {
    seq(FramesDue(|x|, c), k requires 0 <= k < FramesDue(|x|, c) =>
      (FramesDueCounts(|x|, c, k); InputAt(x, k * c.inRate, c)))
  }

  // ------------------------------------------------------------- the kernel

  /** Frame `index` of the history frame followed by the block, with the
      kernel's own clamps. */
  function SequenceFrame(st: State, input: seq<Frame>, index: int): Frame
    requires |input| > 0
  {
    if st.hasPrevious && index == 0 then st.previous
    else
      var i := if st.hasPrevious then index - 1 else index;
      input[if i < 0 then 0 else Min(i, |input| - 1)]
  }

  function SequenceLength(st: State, input: seq<Frame>): nat {
    |input| + (if st.hasPrevious then 1 else 0)
  }

  /** Loop iterations of the kernel without its capacity stop: positions
      position + p * inRate that still have a right neighbour. */
  function Pending(position: nat, length: nat, c: Config): nat
    requires c.Valid() && 0 < length
  {
    if (length - 1) * c.outRate <= position then 0
    else CeilDiv((length - 1) * c.outRate - position, c.inRate)
  }

  lemma PendingCounts(position: nat, length: nat, c: Config, p: nat)
    requires c.Valid() && 0 < length
    ensures p < Pending(position, length, c) <==> position + p * c.inRate + c.outRate < length * c.outRate
  {
    assert length * c.outRate == (length - 1) * c.outRate + c.outRate;
    if (length - 1) * c.outRate > position {
      CeilDivCounts((length - 1) * c.outRate - position, c.inRate, p);
    }
  }

  /** One output frame: interpolate every channel, then map. */
  function OutputFrame(st: State, input: seq<Frame>, position: nat, c: Config): (r: Frame)
    requires c.Valid() && |input| > 0 && Framed(input, c.inChannels)
    requires st.hasPrevious ==> |st.previous| == c.inChannels
    ensures |r| == c.outChannels
  {
    var base := position / c.outRate;
    var t := (position % c.outRate) as real / c.outRate as real;
    var mixed := LerpFrame(SequenceFrame(st, input, base), SequenceFrame(st, input, base + 1), t);
    seq(c.outChannels, ch requires 0 <= ch < c.outChannels => MapChannel(mixed, ch, c.outChannels))
  }

  /** Which input frame the kernel saves as history. */
  function SavedIndex(st: State, input: seq<Frame>, position: nat, c: Config): (i: nat)
    requires c.Valid() && |input| > 0
    ensures i < |input|
  {
    var consumed := position / c.outRate;
    var offset := if st.hasPrevious then 1 else 0;
    Min(if consumed < offset then 0 else consumed - offset, |input| - 1)
  }

  /** One call of the kernel with room for `capacity` output frames. */
  function Convert(st: State, input: seq<Frame>, capacity: nat, c: Config): (r: (State, seq<Frame>))
    requires c.Valid() && Framed(input, c.inChannels)
    requires st.hasPrevious ==> |st.previous| == c.inChannels
    ensures Framed(r.1, c.outChannels)
    ensures r.0.hasPrevious ==> |r.0.previous| == c.inChannels
  {
    if |input| == 0 then (st, [])
    else
      var length := SequenceLength(st, input);
      var produced := Min(capacity, Pending(st.position, length, c));
      var out := seq(produced, p requires 0 <= p < produced =>
        OutputFrame(st, input, st.position + p * c.inRate, c));
      var position := st.position + produced * c.inRate;
      var done := (length - 1) * c.outRate;
      (State(if position < done then 0 else position - done,
             input[SavedIndex(st, input, position, c)], true),
       out)
  }

  // --------------------------------------------------- the clamps never fire

  /** The loop's exit position: at or past the last frame of the sequence, and
      its whole part is no less than that frame's index. */
  lemma ExitPosition(position: nat, length: nat, c: Config)
    requires c.Valid() && 0 < length
    ensures var exit := position + Pending(position, length, c) * c.inRate;
            exit >= (length - 1) * c.outRate && exit / c.outRate >= length - 1
  {
    var produced := Pending(position, length, c);
    PendingCounts(position, length, c, produced);
    var exit := position + produced * c.inRate;
    assert length * c.outRate == (length - 1) * c.outRate + c.outRate;
    var base := exit / c.outRate;
    assert exit == base * c.outRate + exit % c.outRate;
    assert (base + 1) * c.outRate == base * c.outRate + c.outRate;
    if base < length - 1 {
      MulMonotone(base + 1, length - 1, c.outRate);
    }
  }

  /** A call on n input frames produces at most ceil(n * out / in) frames. */
  lemma PendingBound(st: State, input: seq<Frame>, c: Config)
    requires c.Valid() && |input| > 0
    ensures Pending(st.position, SequenceLength(st, input), c) <= CeilDiv(|input| * c.outRate, c.inRate)
  {
    var length := SequenceLength(st, input);
    MulMonotone(length - 1, |input|, c.outRate);
    if (length - 1) * c.outRate > st.position {
      CeilDivMonotone((length - 1) * c.outRate - st.position, |input| * c.outRate, c.inRate);
    }
  }

  /** Every loop position has a right neighbour inside the sequence. */
  lemma PendingInside(position: nat, length: nat, c: Config, p: nat)
    requires c.Valid() && 0 < length && p < Pending(position, length, c)
    ensures (position + p * c.inRate) / c.outRate + 1 < length
  {
    PendingCounts(position, length, c, p);
    var at := position + p * c.inRate;
    var base := at / c.outRate;
    assert at == base * c.outRate + at % c.outRate;
    assert (base + 1) * c.outRate == base * c.outRate + c.outRate;
    if length <= base + 1 {
      MulMonotone(length, base + 1, c.outRate);
    }
  }

  /** With ceil(n * out / in) frames of room no call is ever cut short: the loop
      ends on its position test, the new position needs no clamp at zero, every
      neighbour it reads is a real frame, and the history it keeps is the
      block's last frame. */
  lemma ConvertIsUncut(st: State, input: seq<Frame>, capacity: nat, c: Config)
    requires c.Valid() && Framed(input, c.inChannels) && |input| > 0
    requires st.hasPrevious ==> |st.previous| == c.inChannels
    requires CeilDiv(|input| * c.outRate, c.inRate) <= capacity
    ensures var length := SequenceLength(st, input);
            var produced := Pending(st.position, length, c);
            var exit := st.position + produced * c.inRate;
            && |Convert(st, input, capacity, c).1| == produced
            && exit >= (length - 1) * c.outRate
            && SavedIndex(st, input, exit, c) == |input| - 1
            && Convert(st, input, capacity, c).0
               == State(exit - (length - 1) * c.outRate, input[|input| - 1], true)
    ensures forall p | 0 <= p < Pending(st.position, SequenceLength(st, input), c) ::
              (st.position + p * c.inRate) / c.outRate + 1 < SequenceLength(st, input)
  {
    var length := SequenceLength(st, input);
    PendingBound(st, input, c);
    ExitPosition(st.position, length, c);
    forall p | 0 <= p < Pending(st.position, length, c)
      ensures (st.position + p * c.inRate) / c.outRate + 1 < length
    {
      PendingInside(st.position, length, c, p);
    }
  }

  // ------------------------------------------------- independence of blocks

  /** The state a resampler has after the stream x. */
  function After(x: seq<Frame>, c: Config): (st: State)
    requires c.Valid()
    ensures st.position < c.inRate
  {
    if |x| == 0 then Fresh
    else
      CeilDivBounds((|x| - 1) * c.outRate, c.inRate);
      State(FramesDue(|x|, c) * c.inRate - (|x| - 1) * c.outRate, x[|x| - 1], true)
  }

  /** A position in the kernel's sequence and the same instant in the stream. */
  lemma SameInstant(x: seq<Frame>, y: seq<Frame>, k: nat, c: Config)
    requires c.Valid() && |y| > 0
    requires k >= FramesDue(|x|, c)
    ensures var p := k - FramesDue(|x|, c);
            var skipped := if |x| == 0 then 0 else |x| - 1;
            After(x, c).position + p * c.inRate + skipped * c.outRate == k * c.inRate
  {
    var p := k - FramesDue(|x|, c);
    assert k * c.inRate == FramesDue(|x|, c) * c.inRate + p * c.inRate;
  }

  /** The frames due from a block are those the whole stream owes beyond the
      ones already produced. */
  lemma PendingIsTheDifference(x: seq<Frame>, y: seq<Frame>, c: Config)
    requires c.Valid() && |y| > 0
    ensures FramesDue(|x|, c) + Pending(After(x, c).position, SequenceLength(After(x, c), y), c)
         == FramesDue(|x| + |y|, c)
  {
    var due, all := FramesDue(|x|, c), FramesDue(|x| + |y|, c);
    var st := After(x, c);
    var length := SequenceLength(st, y);
    var skipped := if |x| == 0 then 0 else |x| - 1;
    assert length + skipped == |x| + |y|;
    assert (|x| + |y|) * c.outRate == length * c.outRate + skipped * c.outRate;
    assert (|x| + |y|) * c.outRate == (|x| + |y| - 1) * c.outRate + c.outRate;
    var pending := Pending(st.position, length, c);
    if due + pending < all {
      SameInstant(x, y, due + pending, c);
      PendingCounts(st.position, length, c, pending);
      FramesDueCounts(|x| + |y|, c, due + pending);
    }
    FramesDueGrows(|x|, |y|, c);
    if all < due + pending {
      SameInstant(x, y, all, c);
      PendingCounts(st.position, length, c, all - due);
      FramesDueCounts(|x| + |y|, c, all);
    }
  }

  lemma FramesDueGrows(n: nat, m: nat, c: Config)
    requires c.Valid()
    ensures FramesDue(n, c) <= FramesDue(n + m, c)
  {
    if n > 0 {
      MulMonotone(n - 1, n + m - 1, c.outRate);
      CeilDivMonotone((n - 1) * c.outRate, (n + m - 1) * c.outRate, c.inRate);
    }
  }

  lemma FramedConcat(x: seq<Frame>, y: seq<Frame>, n: nat)
    ensures Framed(x + y, n) <==> Framed(x, n) && Framed(y, n)
  {
    if Framed(x + y, n) {
      assert forall f | 0 <= f < |x| :: x[f] == (x + y)[f];
      assert forall f | 0 <= f < |y| :: y[f] == (x + y)[|x| + f];
    }
  }

  /** The same instant in whole frames and fraction. */
  lemma SameInstantSplit(x: seq<Frame>, y: seq<Frame>, k: nat, c: Config)
    requires c.Valid() && |y| > 0 && FramesDue(|x|, c) <= k
    ensures var at := After(x, c).position + (k - FramesDue(|x|, c)) * c.inRate;
            && (k * c.inRate) / c.outRate == at / c.outRate + (if |x| == 0 then 0 else |x| - 1)
            && (k * c.inRate) % c.outRate == at % c.outRate
  {
    SameInstant(x, y, k, c);
    DivModShift(After(x, c).position + (k - FramesDue(|x|, c)) * c.inRate, if |x| == 0 then 0 else |x| - 1, c.outRate);
  }

  /** If the kernel sees the stream's two frames, it outputs the stream's value. */
  lemma SameFrames(st: State, y: seq<Frame>, at: nat, z: seq<Frame>, position: nat, c: Config)
    requires c.Valid() && |y| > 0 && Framed(y, c.inChannels) && Framed(z, c.inChannels)
    requires st.hasPrevious ==> |st.previous| == c.inChannels
    requires position / c.outRate + 1 < |z| && position % c.outRate == at % c.outRate
    requires SequenceFrame(st, y, at / c.outRate) == z[position / c.outRate]
    requires SequenceFrame(st, y, at / c.outRate + 1) == z[position / c.outRate + 1]
    ensures OutputFrame(st, y, at, c) == InputAt(z, position, c)
  {
    var a, b := z[position / c.outRate], z[position / c.outRate + 1];
    var t := (position % c.outRate) as real / c.outRate as real;
    forall ch | 0 <= ch < c.outChannels
      ensures OutputFrame(st, y, at, c)[ch] == InputAt(z, position, c)[ch]
    {
      MapLerp(a, b, t, ch, c.outChannels);
    }
  }

  /** The kernel's frame at a position is the stream's at the same instant. */
  lemma FrameIsInputAt(x: seq<Frame>, y: seq<Frame>, at: nat, position: nat, c: Config)
    requires c.Valid() && |y| > 0 && Framed(x + y, c.inChannels) && Framed(x, c.inChannels) && Framed(y, c.inChannels)
    requires position / c.outRate == at / c.outRate + (if |x| == 0 then 0 else |x| - 1)
    requires position % c.outRate == at % c.outRate
    requires position / c.outRate + 1 < |x| + |y|
    ensures OutputFrame(After(x, c), y, at, c) == InputAt(x + y, position, c)
  {
    SequenceIsStream(x, y, at / c.outRate, c);
    SequenceIsStream(x, y, at / c.outRate + 1, c);
    SameFrames(After(x, c), y, at, x + y, position, c);
  }

  lemma DivModShift(a: nat, k: nat, d: nat)
    requires 0 < d
    ensures (a + k * d) / d == a / d + k && (a + k * d) % d == a % d
  {
    assert (a / d + k) * d == (a / d) * d + k * d;
    DivModUnique(a + k * d, d, a / d + k, a % d);
  }

  lemma SequenceIsStream(x: seq<Frame>, y: seq<Frame>, index: nat, c: Config)
    requires c.Valid() && |y| > 0
    requires index < SequenceLength(After(x, c), y)
    ensures SequenceFrame(After(x, c), y, index) == (x + y)[index + (if |x| == 0 then 0 else |x| - 1)]
  {
  }

  /** One block: from the state left by x, converting y yields the state of
      x + y and exactly the frames of x + y not yet produced. */
  lemma BlockStep(x: seq<Frame>, y: seq<Frame>, capacity: nat, c: Config)
    requires c.Valid() && Framed(x, c.inChannels) && Framed(y, c.inChannels)
    requires Framed(x + y, c.inChannels)
    requires CeilDiv(|y| * c.outRate, c.inRate) <= capacity
    ensures Convert(After(x, c), y, capacity, c).0 == After(x + y, c)
    ensures Resampled(x, c) + Convert(After(x, c), y, capacity, c).1 == Resampled(x + y, c)
  {
    var st := After(x, c);
    if |y| == 0 {
      assert x + y == x;
    } else {
      ConvertIsUncut(st, y, capacity, c);
      PendingIsTheDifference(x, y, c);
      BlockState(x, y, capacity, c);
      BlockOutput(x, y, capacity, c);
    }
  }

  lemma BlockState(x: seq<Frame>, y: seq<Frame>, capacity: nat, c: Config)
    requires c.Valid() && Framed(x, c.inChannels) && Framed(y, c.inChannels) && |y| > 0
    requires CeilDiv(|y| * c.outRate, c.inRate) <= capacity
    ensures Convert(After(x, c), y, capacity, c).0 == After(x + y, c)
  {
    ConvertIsUncut(After(x, c), y, capacity, c);
    PendingIsTheDifference(x, y, c);
    BlockPosition(x, y, c);
  }

  lemma BlockPosition(x: seq<Frame>, y: seq<Frame>, c: Config)
    requires c.Valid() && |y| > 0
    ensures var st := After(x, c);
            var length := SequenceLength(st, y);
            st.position + (FramesDue(|x| + |y|, c) - FramesDue(|x|, c)) * c.inRate - (length - 1) * c.outRate
            == FramesDue(|x| + |y|, c) * c.inRate - (|x| + |y| - 1) * c.outRate
  {
    FramesDueGrows(|x|, |y|, c);
    SameInstant(x, y, FramesDue(|x| + |y|, c), c);
    var length := SequenceLength(After(x, c), y);
    var skipped := if |x| == 0 then 0 else |x| - 1;
    assert (|x| + |y| - 1) * c.outRate == (length - 1) * c.outRate + skipped * c.outRate;
  }

  lemma BlockOutput(x: seq<Frame>, y: seq<Frame>, capacity: nat, c: Config)
    requires c.Valid() && Framed(x, c.inChannels) && Framed(y, c.inChannels) && |y| > 0
    requires Framed(x + y, c.inChannels)
    requires CeilDiv(|y| * c.outRate, c.inRate) <= capacity
    ensures Resampled(x, c) + Convert(After(x, c), y, capacity, c).1 == Resampled(x + y, c)
  {
    ConvertIsUncut(After(x, c), y, capacity, c);
    PendingIsTheDifference(x, y, c);
    var due := FramesDue(|x|, c);
    var before, out, all := Resampled(x, c), Convert(After(x, c), y, capacity, c).1, Resampled(x + y, c);
    assert |all| == due + |out|;
    forall k | 0 <= k < |all|
      ensures (before + out)[k] == all[k]
    {
      if k < due {
        OldFrame(x, y, k, c);
      } else {
        NewFrame(x, y, k, capacity, c);
      }
    }
  }

  lemma OldFrame(x: seq<Frame>, y: seq<Frame>, k: nat, c: Config)
    requires c.Valid() && Framed(x, c.inChannels) && Framed(x + y, c.inChannels)
    requires k < FramesDue(|x|, c) && k < FramesDue(|x + y|, c)
    ensures Resampled(x, c)[k] == Resampled(x + y, c)[k]
  {
    FramesDueCounts(|x|, c, k);
    InputAtPrefix(x, y, k * c.inRate, c);
  }

  lemma ConvertAt(st: State, y: seq<Frame>, capacity: nat, c: Config, p: nat)
    requires c.Valid() && Framed(y, c.inChannels) && |y| > 0
    requires st.hasPrevious ==> |st.previous| == c.inChannels
    requires p < |Convert(st, y, capacity, c).1|
    ensures Convert(st, y, capacity, c).1[p] == OutputFrame(st, y, st.position + p * c.inRate, c)
  {
  }

  lemma ResampledAt(z: seq<Frame>, k: nat, c: Config)
    requires c.Valid() && Framed(z, c.inChannels) && k < FramesDue(|z|, c)
    ensures (k * c.inRate) / c.outRate + 1 < |z| && Resampled(z, c)[k] == InputAt(z, k * c.inRate, c)
  {
    FramesDueCounts(|z|, c, k);
  }

  lemma NewFrame(x: seq<Frame>, y: seq<Frame>, k: nat, capacity: nat, c: Config)
    requires c.Valid() && Framed(x, c.inChannels) && Framed(y, c.inChannels) && |y| > 0
    requires Framed(x + y, c.inChannels)
    requires FramesDue(|x|, c) <= k < FramesDue(|x + y|, c)
    requires k - FramesDue(|x|, c) < |Convert(After(x, c), y, capacity, c).1|
    ensures Convert(After(x, c), y, capacity, c).1[k - FramesDue(|x|, c)] == Resampled(x + y, c)[k]
  {
    var p := k - FramesDue(|x|, c);
    ConvertAt(After(x, c), y, capacity, c, p);
    ResampledAt(x + y, k, c);
    SameInstantSplit(x, y, k, c);
    FrameIsInputAt(x, y, After(x, c).position + p * c.inRate, k * c.inRate, c);
  }

  lemma InputAtPrefix(x: seq<Frame>, y: seq<Frame>, position: nat, c: Config)
    requires c.Valid() && Framed(x, c.inChannels) && Framed(x + y, c.inChannels)
    requires position / c.outRate + 1 < |x|
    ensures InputAt(x + y, position, c) == InputAt(x, position, c)
  {
    assert forall i | 0 <= i < |x| :: (x + y)[i] == x[i];
  }

  /** A block of input and the room its caller gives the kernel. */
  datatype Block = Block(frames: seq<Frame>, capacity: nat)

  predicate Roomy(b: Block, c: Config)
    requires c.Valid()
  {
    Framed(b.frames, c.inChannels) && CeilDiv(|b.frames| * c.outRate, c.inRate) <= b.capacity
  }

  /** Successive calls of the kernel, outputs in order. */
  function ConvertAll(st: State, blocks: seq<Block>, c: Config): (r: (State, seq<Frame>))
    requires c.Valid() && forall b | b in blocks :: Roomy(b, c)
    requires st.hasPrevious ==> |st.previous| == c.inChannels
    decreases |blocks|
  {
    if |blocks| == 0 then (st, [])
    else
      assert Roomy(blocks[0], c);
      var (next, out) := Convert(st, blocks[0].frames, blocks[0].capacity, c);
      var (last, rest) := ConvertAll(next, blocks[1..], c);
      (last, out + rest)
  }

  function Joined(blocks: seq<Block>): seq<Frame> {
    if |blocks| == 0 then [] else blocks[0].frames + Joined(blocks[1..])
  }

  lemma {:induction false} ConvertAllFrom(x: seq<Frame>, blocks: seq<Block>, c: Config)
    requires c.Valid() && Framed(x, c.inChannels) && forall b | b in blocks :: Roomy(b, c)
    requires Framed(x + Joined(blocks), c.inChannels)
    ensures ConvertAll(After(x, c), blocks, c).0 == After(x + Joined(blocks), c)
    ensures Resampled(x, c) + ConvertAll(After(x, c), blocks, c).1 == Resampled(x + Joined(blocks), c)
    decreases |blocks|
  {
    if |blocks| == 0 {
      assert x + Joined(blocks) == x;
    } else {
      var b, rest := blocks[0], blocks[1..];
      assert Roomy(b, c);
      assert (x + b.frames) + Joined(rest) == x + Joined(blocks);
      FramedConcat(x, b.frames, c.inChannels);
      BlockStep(x, b.frames, b.capacity, c);
      ConvertAllFrom(x + b.frames, rest, c);
      Associative(Resampled(x, c), Convert(After(x, c), b.frames, b.capacity, c).1,
                  ConvertAll(After(x + b.frames, c), rest, c).1);
    }
  }

  lemma Associative<T>(a: seq<T>, b: seq<T>, c: seq<T>)
    ensures a + (b + c) == (a + b) + c
  {
  }

  /** Main theorem. However a stream is split into blocks, the outputs joined
      are the reference output of the whole stream, the same as one call on it,
      and both leave the same state. */
  lemma SplitIndependent(blocks: seq<Block>, capacity: nat, c: Config)
    requires c.Valid() && forall b | b in blocks :: Roomy(b, c)
    requires Roomy(Block(Joined(blocks), capacity), c)
    ensures ConvertAll(Fresh, blocks, c).1 == Resampled(Joined(blocks), c)
    ensures ConvertAll(Fresh, blocks, c) == Convert(Fresh, Joined(blocks), capacity, c)
    ensures |ConvertAll(Fresh, blocks, c).1| == FramesDue(|Joined(blocks)|, c)
  {
    var none: seq<Frame> := [];
    var x := Joined(blocks);
    assert none + x == x;
    ConvertAllFrom(none, blocks, c);
    NothingYet(ConvertAll(Fresh, blocks, c).1, c);
    BlockStep(none, x, capacity, c);
    NothingYet(Convert(Fresh, x, capacity, c).1, c);
  }

  lemma NothingYet(out: seq<Frame>, c: Config)
    requires c.Valid()
    ensures Resampled([], c) + out == out
  {
    assert Resampled([], c) == [];
  }
}

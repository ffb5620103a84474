/** The output ring between the decode loop and the audio callback:
    crates/around-engine/src/cpal_adapter.rs over the byte ring of
    crates/around-engine/src/output.rs. */
module OutputRing {
  import opened Arith
  import opened Pcm
  import opened Bytes
  import opened SampleCodec

  // ---------------------------------------------------------------- silence

  /** fill_silence's sample: the leading bytes of a 16-byte native midpoint. */
  function SilentSample(enc: PcmEncoding, host: Host): (b: seq<Byte>)
    ensures |b| == enc.BytesPerSample()
  {
    var midpoint := if enc.IsUnsigned() then Half(enc) else 0;
    NativeBytes(ToLe(midpoint, 16), host)[..enc.BytesPerSample()]
  }

  /** n bytes of a repeated sample: whole samples, then zeros. */
  function Repeated(sample: seq<Byte>, n: nat): (b: seq<Byte>)
    requires 0 < |sample|
    ensures |b| == n
  {
    seq(n, j requires 0 <= j < n => if j < n / |sample| * |sample| then sample[j % |sample|] else 0)
  }

  /** fill_silence on n bytes. */
  function SilenceBytes(enc: PcmEncoding, host: Host, n: nat): (b: seq<Byte>)
    ensures |b| == n
  {
    Repeated(SilentSample(enc, host), n)
  }

  lemma {:induction false} ToLeZero(w: nat)
    ensures ToLe(0, w) == seq(w, _ => 0)
  {
    if w > 0 {
      ToLeZero(w - 1);
    }
  }

  /** Byte i of a little-endian integer is its digit i in base 256. */
  lemma {:induction false} TopByte(w: nat, wide: nat)
    requires 0 < w < wide
    ensures ToLe(128 * Pow256(w - 1), wide)[w - 1] == 128 && ToLe(128 * Pow256(w - 1), wide)[wide - 1] == 0
    decreases w
  {
    if w == 1 {
      ToLeZero(wide - 1);
      assert ToLe(128, wide) == [128] + ToLe(0, wide - 1);
    } else {
      TopByte(w - 1, wide - 1);
      var n := 128 * Pow256(w - 2);
      assert 128 * Pow256(w - 1) == 256 * n;
      assert (256 * n) % 256 == 0 && (256 * n) / 256 == n;
    }
  }

  lemma HalfIsTopBit(enc: PcmEncoding)
    ensures Half(enc) == 128 * Pow256(enc.BytesPerSample() - 1)
  {
    Widths(enc);
  }

  lemma ReverseZeros(n: nat, w: nat)
    requires w <= n
    ensures Reverse(seq(n, _ => 0))[..w] == seq(w, _ => 0) && Reverse(seq(n, _ => 0)[..w]) == seq(w, _ => 0)
  {
  }

  /** Truncating before or after reversing a 16-byte midpoint differs only when
      there is a bit to lose. */
  lemma TruncatedMidpoint(midpoint: nat, w: nat, host: Host)
    requires 0 < w < 16 && (midpoint == 0 || midpoint == 128 * Pow256(w - 1))
    ensures NativeBytes(ToLe(midpoint, 16), host)[..w] == WriteInteger(midpoint, w, host == LittleHost)
            <==> host == LittleHost || midpoint == 0
  {
    var wide := ToLe(midpoint, 16);
    if midpoint == 0 {
      ToLeZero(16);
      ReverseZeros(16, w);
    } else {
      TopByte(w, 16);
      if host == BigHost {
        assert Reverse(wide)[..w][0] == 0 && Reverse(wide[..w])[0] == 128;
      }
    }
  }

  /** Silence is the encoding of 0.0 in native order, exactly on little-endian
      builds or for encodings that are not unsigned. */
  lemma SilenceIsZeroSample(enc: PcmEncoding, target: Target)
    requires target.floats.f32(0.0) == [0, 0, 0, 0] && target.floats.f64(0.0) == [0, 0, 0, 0, 0, 0, 0, 0]
    ensures SilentSample(enc, target.host) == SampleBytes(0.0, enc, Native, target)
            <==> target.host == LittleHost || !enc.IsUnsigned()
  {
    hide SampleBytes, WriteInteger, ToLe, Half, NativeBytes;
    if enc.IsFloat() {
      QuietFloat(enc, target);
    } else {
      ZeroInteger(enc, target);
      HalfIsTopBit(enc);
      TruncatedMidpoint(if enc.IsUnsigned() then Half(enc) else 0, enc.BytesPerSample(), target.host);
    }
  }

  lemma ZeroInteger(enc: PcmEncoding, target: Target)
    requires !enc.IsFloat()
    ensures SampleBytes(0.0, enc, Native, target)
         == WriteInteger(if enc.IsUnsigned() then Half(enc) else 0, enc.BytesPerSample(), target.host == LittleHost)
    ensures Half(enc) != 0
  {
    hide SampleBytes, WriteInteger, Quantized;
    SilenceIsMidpoint(enc);
    IntegerBytes(0.0, enc, Native, target);
  }

  lemma QuietFloat(enc: PcmEncoding, target: Target)
    requires target.floats.f32(0.0) == [0, 0, 0, 0] && target.floats.f64(0.0) == [0, 0, 0, 0, 0, 0, 0, 0]
    requires enc.IsFloat()
    ensures SilentSample(enc, target.host) == SampleBytes(0.0, enc, Native, target)
  {
    ZeroFloat(target.floats.f32(0.0), target.host);
    ZeroFloat(target.floats.f64(0.0), target.host);
    QuietStart(enc, target.host);
    var zeros := seq(enc.BytesPerSample(), _ => 0);
    if enc == F32 {
      assert zeros == [0, 0, 0, 0];
    } else {
      assert zeros == [0, 0, 0, 0, 0, 0, 0, 0];
    }
  }

  lemma QuietStart(enc: PcmEncoding, host: Host)
    requires !enc.IsUnsigned()
    ensures SilentSample(enc, host) == seq(enc.BytesPerSample(), _ => 0)
  {
    hide ToLe, Half;
    ToLeZero(16);
    ReverseZeros(16, enc.BytesPerSample());
  }

  lemma ZeroFloat(b: seq<Byte>, host: Host)
    requires forall i | 0 <= i < |b| :: b[i] == 0
    ensures CopyOrdered(NativeBytes(b, host), LittleFirst(Native, host), host) == b
  {
  }

  // ------------------------------------------------------- the ring protocol

  /** A byte handed to the device: from the ring, or silence. */
  datatype Sound = Played(byte: Byte) | Quiet(byte: Byte)

  datatype Format = Format(encoding: PcmEncoding, frameBytes: nat, host: Host)
  {
    predicate Valid() { 0 < frameBytes }

    /** checked_mul(16384) frames. */
    function Capacity(): nat { frameBytes * 16384 }
  }

  /** The ring, the rest of the write in progress and whether its last push moved
      nothing, the device-lost flag, and what has been submitted and delivered so far. */
  datatype State = State(
    queue: seq<Byte>, rest: seq<Byte>, stalled: bool, lost: bool, gaveUp: bool, submitted: seq<Byte>,
    delivered: seq<Sound>)

  const Start := State([], [], false, false, false, [], [])

  datatype Event =
    | Submit(block: seq<Byte>)    // write() passes its checks with a block
    | Push                        // one push_slice of the write loop
    | GiveUp                      // nothing pushed and the device is lost
    | Lose                        // the error callback
    | Callback(bytes: nat)        // the audio callback asks for bytes

  predicate Enabled(s: State, e: Event, f: Format)
    requires f.Valid()
  {
    match e
    case Submit(block) => !s.lost && |s.rest| == 0 && |block| % f.frameBytes == 0
    case Push => |s.rest| > 0
    case GiveUp => |s.rest| > 0 && s.stalled && s.lost
    case Lose => true
    case Callback(bytes) => bytes % f.frameBytes == 0
  }

  function Free(s: State, f: Format): nat {
    if |s.queue| < f.Capacity() then f.Capacity() - |s.queue| else 0
  }

  function Next(s: State, e: Event, f: Format): State
    requires f.Valid() && Enabled(s, e, f)
  {
    match e
    case Submit(block) => s.(rest := block, stalled := false, submitted := s.submitted + block)
    case Push =>
      var pushed := Min(Free(s, f), |s.rest|);
      s.(queue := s.queue + s.rest[..pushed], rest := s.rest[pushed..], stalled := pushed == 0)
    case GiveUp => s.(rest := [], gaveUp := true)
    case Lose => s.(lost := true)
    case Callback(bytes) =>
      var popped := Min(|s.queue|, bytes);
      s.(queue := s.queue[popped..],
         delivered := s.delivered + AsPlayed(s.queue[..popped])
                      + AsQuiet(SilenceBytes(f.encoding, f.host, bytes - popped)))
  }

  function AsPlayed(b: seq<Byte>): (r: seq<Sound>)
    ensures |r| == |b|
  {
    seq(|b|, i requires 0 <= i < |b| => Played(b[i]))
  }

  function AsQuiet(b: seq<Byte>): (r: seq<Sound>)
    ensures |r| == |b|
  {
    seq(|b|, i requires 0 <= i < |b| => Quiet(b[i]))
  }

  /** Delivered bytes with silence removed. */
  function Heard(d: seq<Sound>): seq<Byte> {
    if |d| == 0 then [] else Heard(d[..|d| - 1]) + (if d[|d| - 1].Played? then [d[|d| - 1].byte] else [])
  }

  lemma {:induction false} HeardConcat(a: seq<Sound>, b: seq<Sound>)
    ensures Heard(a + b) == Heard(a) + Heard(b)
  {
    if |b| == 0 {
      assert a + b == a;
    } else {
      var n := |b| - 1;
      HeardConcat(a, b[..n]);
      assert (a + b)[..|a + b| - 1] == a + b[..n];
    }
  }

  lemma {:induction false} HeardPlayed(b: seq<Byte>)
    ensures Heard(AsPlayed(b)) == b
  {
    if |b| > 0 {
      var n := |b| - 1;
      HeardPlayed(b[..n]);
      assert AsPlayed(b)[..n] == AsPlayed(b[..n]);
    }
  }

  lemma {:induction false} HeardQuiet(b: seq<Byte>)
    ensures Heard(AsQuiet(b)) == []
  {
    if |b| > 0 {
      var n := |b| - 1;
      HeardQuiet(b[..n]);
      assert AsQuiet(b)[..n] == AsQuiet(b[..n]);
    }
  }

  /** Played and silent stretches change over only on frame boundaries. */
  ghost predicate FrameAligned(d: seq<Sound>, f: Format)
    requires f.Valid()
  {
    |d| % f.frameBytes == 0
    && forall j | 0 < j < |d| && d[j].Played? != d[j - 1].Played? :: j % f.frameBytes == 0
  }

  /** The ring and the write in progress hold whole frames, and so does every
      played or silent stretch. */
  ghost predicate Aligned(s: State, f: Format) {
    f.Valid() && |s.queue| <= f.Capacity()
    && |s.queue| % f.frameBytes == 0 && |s.rest| % f.frameBytes == 0
    && FrameAligned(s.delivered, f)
  }

  /** No byte is lost, repeated or reordered on the way through. */
  ghost predicate InOrder(s: State) {
    && (s.gaveUp ==> s.lost && s.rest == [])
    && Heard(s.delivered) + s.queue + s.rest <= s.submitted
    && (!s.gaveUp ==> Heard(s.delivered) + s.queue + s.rest == s.submitted)
  }

  /** What every step keeps. */
  ghost predicate Inv(s: State, f: Format) {
    Aligned(s, f) && InOrder(s)
  }

  lemma WholeSum(a: nat, b: nat, m: nat)
    requires 0 < m && a % m == 0 && b % m == 0
    ensures (a + b) % m == 0
  {
    DivModUnique(a + b, m, a / m + b / m, 0);
  }

  lemma WholeDifference(a: nat, b: nat, m: nat)
    requires 0 < m && a % m == 0 && b % m == 0 && a <= b
    ensures (b - a) % m == 0
  {
    var p, q := a / m, b / m;
    assert a == p * m && b == q * m;
    assert (q + 1) * m == q * m + m;
    if q < p {
      MulMonotone(q + 1, p, m);
    }
    assert (q - p) * m == b - a;
    DivModUnique(b - a, m, q - p, 0);
  }

  lemma CapacityIsWhole(f: Format)
    requires f.Valid()
    ensures f.Capacity() % f.frameBytes == 0
  {
    DivModUnique(f.Capacity(), f.frameBytes, 16384, 0);
  }

  lemma InvStart(f: Format)
    requires f.Valid()
    ensures Inv(Start, f)
  {
  }

  lemma SubmitKeeps(s: State, block: seq<Byte>, f: Format)
    requires Inv(s, f) && Enabled(s, Submit(block), f)
    ensures Inv(Next(s, Submit(block), f), f)
  {
    assert s.rest == [] && !s.gaveUp;
    assert Heard(s.delivered) + s.queue + [] == Heard(s.delivered) + s.queue;
  }

  /** A push moves whole frames, at least one if there is any room. */
  lemma PushAligned(s: State, f: Format)
    requires Aligned(s, f) && Enabled(s, Push, f)
    ensures Aligned(Next(s, Push, f), f)
    ensures 0 < Free(s, f) ==> f.frameBytes <= |Next(s, Push, f).queue| - |s.queue|
  {
    CapacityIsWhole(f);
    WholeDifference(|s.queue|, f.Capacity(), f.frameBytes);
    var pushed := Min(Free(s, f), |s.rest|);
    assert pushed % f.frameBytes == 0;
    WholeSum(|s.queue|, pushed, f.frameBytes);
    WholeDifference(pushed, |s.rest|, f.frameBytes);
    if 0 < pushed {
      AtLeastOne(pushed, f.frameBytes);
    }
  }

  lemma AtLeastOne(n: nat, m: nat)
    requires 0 < m && n % m == 0 && 0 < n
    ensures m <= n
  {
    assert n == n / m * m;
  }

  lemma PushInOrder(s: State, f: Format)
    requires InOrder(s) && f.Valid() && Enabled(s, Push, f)
    ensures InOrder(Next(s, Push, f))
  {
    hide Format.Capacity;
    var pushed := Min(Free(s, f), |s.rest|);
    assert s.rest == s.rest[..pushed] + s.rest[pushed..];
    var h := Heard(s.delivered);
    assert h + s.queue + s.rest == h + (s.queue + s.rest[..pushed]) + s.rest[pushed..];
  }

  /** Appending played bytes and then silence, both in whole frames. */
  lemma AlignedAppend(d: seq<Sound>, a: seq<Byte>, b: seq<Byte>, f: Format)
    requires f.Valid() && FrameAligned(d, f) && |a| % f.frameBytes == 0 && |b| % f.frameBytes == 0
    ensures FrameAligned(d + AsPlayed(a) + AsQuiet(b), f)
  {
    var all := d + AsPlayed(a) + AsQuiet(b);
    WholeSum(|d|, |a|, f.frameBytes);
    WholeSum(|d| + |a|, |b|, f.frameBytes);
    forall j | 0 < j < |all| && all[j].Played? != all[j - 1].Played?
      ensures j % f.frameBytes == 0
    {
      if j < |d| {
        assert d[j].Played? != d[j - 1].Played?;
      } else {
        assert j == |d| || j == |d| + |a|;
      }
    }
  }

  lemma CallbackAligned(s: State, bytes: nat, f: Format)
    requires Aligned(s, f) && Enabled(s, Callback(bytes), f)
    ensures Aligned(Next(s, Callback(bytes), f), f)
    ensures Min(|s.queue|, bytes) % f.frameBytes == 0
  {
    hide FrameAligned, SilenceBytes;
    var popped := Min(|s.queue|, bytes);
    WholeDifference(popped, |s.queue|, f.frameBytes);
    WholeDifference(popped, bytes, f.frameBytes);
    AlignedAppend(s.delivered, s.queue[..popped], SilenceBytes(f.encoding, f.host, bytes - popped), f);
  }

  lemma CallbackInOrder(s: State, bytes: nat, f: Format)
    requires InOrder(s) && f.Valid() && Enabled(s, Callback(bytes), f)
    ensures InOrder(Next(s, Callback(bytes), f))
  {
    hide Heard, SilenceBytes, AsPlayed, AsQuiet;
    var popped := Min(|s.queue|, bytes);
    var silence := SilenceBytes(f.encoding, f.host, bytes - popped);
    HeardConcat(s.delivered + AsPlayed(s.queue[..popped]), AsQuiet(silence));
    HeardConcat(s.delivered, AsPlayed(s.queue[..popped]));
    HeardPlayed(s.queue[..popped]);
    HeardQuiet(silence);
    var h := Heard(s.delivered);
    assert s.queue == s.queue[..popped] + s.queue[popped..];
    assert h + s.queue[..popped] + [] == h + s.queue[..popped];
    assert h + s.queue + s.rest == (h + s.queue[..popped]) + s.queue[popped..] + s.rest;
  }

  lemma GiveUpKeeps(s: State, f: Format)
    requires Inv(s, f) && Enabled(s, GiveUp, f)
    ensures Inv(Next(s, GiveUp, f), f)
  {
    var h := Heard(s.delivered) + s.queue;
    assert h + [] == h && h <= h + s.rest;
  }

  /** Every event keeps whole frames and order. */
  lemma InvNext(s: State, e: Event, f: Format)
    requires Inv(s, f) && Enabled(s, e, f)
    ensures Inv(Next(s, e, f), f)
  {
    match e
    case Submit(block) => SubmitKeeps(s, block, f);
    case Push =>
      PushAligned(s, f);
      PushInOrder(s, f);
    case GiveUp => GiveUpKeeps(s, f);
    case Lose =>
    case Callback(bytes) =>
      CallbackAligned(s, bytes, f);
      CallbackInOrder(s, bytes, f);
  }

  /** A run: every event enabled where it happens. */
  ghost predicate Run(s: State, events: seq<Event>, f: Format, end: State)
    requires f.Valid()
    decreases |events|
  {
    if |events| == 0 then s == end
    else Enabled(s, events[0], f) && Run(Next(s, events[0], f), events[1..], f, end)
  }

  lemma RunNothing(s: State, f: Format)
    requires f.Valid()
    ensures Run(s, [], f, s)
  {
  }

  lemma {:induction false} RunThen(s: State, a: seq<Event>, middle: State, e: Event, f: Format)
    requires f.Valid() && Run(s, a, f, middle) && Enabled(middle, e, f)
    ensures Run(s, a + [e], f, Next(middle, e, f))
    decreases |a|
  {
    hide Next, Enabled;
    if |a| == 0 {
      assert a + [e] == [e];
      assert [e][1..] == [];
    } else {
      assert (a + [e])[1..] == a[1..] + [e] && (a + [e])[0] == a[0];
      RunThen(Next(s, a[0], f), a[1..], middle, e, f);
    }
  }

  lemma {:induction false} InvRun(s: State, events: seq<Event>, f: Format, end: State)
    requires f.Valid() && Inv(s, f) && Run(s, events, f, end)
    ensures Inv(end, f)
    decreases |events|
  {
    hide Aligned, InOrder, Next;
    if |events| > 0 {
      InvNext(s, events[0], f);
      InvRun(Next(s, events[0], f), events[1..], f, end);
    }
  }

  /** Main theorem. In every interleaving of writes, callbacks and device loss,
      what is heard is a prefix of what was submitted, in order and without
      repetition; while no write has been given up, the rest of it is exactly
      the ring and the write in progress. The ring holds whole frames, so
      silence starts and ends on frame boundaries. */
  lemma RingDelivers(events: seq<Event>, f: Format, end: State)
    requires f.Valid() && Run(Start, events, f, end)
    ensures Heard(end.delivered) <= end.submitted
    ensures !end.gaveUp ==> end.submitted == Heard(end.delivered) + end.queue + end.rest
    ensures |end.queue| % f.frameBytes == 0 && |end.queue| <= f.Capacity()
    ensures FrameAligned(end.delivered, f)
  {
    InvStart(f);
    InvRun(Start, events, f, end);
  }

  // --------------------------------------------------------------- the code

  /** The bounded byte ring: pushes and pops move as much as fits. */
  class AudioRing {
    const capacity: nat
    var queue: seq<Byte>

    constructor (capacity: nat)
      ensures this.capacity == capacity && queue == []
    {
      this.capacity, queue := capacity, [];
    }

    method PushSlice(bytes: seq<Byte>) returns (pushed: nat)
      modifies this
      ensures pushed == Min(if |old(queue)| < capacity then capacity - |old(queue)| else 0, |bytes|)
      ensures queue == old(queue) + bytes[..pushed]
    {
      pushed := Min(if |queue| < capacity then capacity - |queue| else 0, |bytes|);
      queue := queue + bytes[..pushed];
    }

    method PopSlice(out: array<Byte>) returns (popped: nat)
      modifies this, out
      ensures popped == Min(|old(queue)|, out.Length) && queue == old(queue)[popped..]
      ensures out[..popped] == old(queue)[..popped] && out[popped..] == old(out[popped..])
    {
      popped := Min(|queue|, out.Length);
      for i := 0 to popped
        invariant out[..i] == queue[..i] && out[popped..] == old(out[popped..]) && queue == old(queue)
        modifies out
      {
        out[i] := queue[i];
      }
      queue := queue[popped..];
    }
  }

  /** fill_silence on bytes[from..], sample by sample, then the remainder. */
  method FillSilence(enc: PcmEncoding, host: Host, bytes: array<Byte>, from: nat)
    requires from <= bytes.Length
    modifies bytes
    ensures bytes[from..] == SilenceBytes(enc, host, bytes.Length - from)
    ensures bytes[..from] == old(bytes[..from])
  {
    hide Repeated, SilentSample, Pattern, CeilDiv, WholePart;
    var sample := SilentSample(enc, host);
    var n := bytes.Length - from;
    var whole := WholePart(n, |sample|);
    RepeatedParts(sample, n, whole);
    FillPattern(sample, bytes, from, whole, Repeated(sample, n));
  }

  /** The part of n bytes that whole samples cover. */
  function WholePart(n: nat, w: nat): nat
    requires 0 < w
  {
    n / w * w
  }

  /** A pattern: the sample again and again up to `whole`, zeros from there. */
  ghost predicate Pattern(goal: seq<Byte>, sample: seq<Byte>, whole: nat) {
    0 < |sample| && whole <= |goal|
    && (forall at | 0 <= at < whole && at % |sample| == 0 ::
          at + |sample| <= whole && (at + |sample|) % |sample| == 0 && goal[at..at + |sample|] == sample)
    && forall k | whole <= k < |goal| :: goal[k] == 0
  }

  lemma RepeatedParts(sample: seq<Byte>, n: nat, whole: nat)
    requires 0 < |sample| && whole == WholePart(n, |sample|)
    ensures Pattern(Repeated(sample, n), sample, whole)
  {
    assert whole <= n;
    forall at | 0 <= at < whole && at % |sample| == 0
      ensures at + |sample| <= whole && (at + |sample|) % |sample| == 0
      ensures Repeated(sample, n)[at..at + |sample|] == sample
    {
      RepeatedChunk(sample, n, at);
    }
  }

  method FillPattern(sample: seq<Byte>, bytes: array<Byte>, from: nat, whole: nat, ghost goal: seq<Byte>)
    requires from <= bytes.Length && |goal| == bytes.Length - from && Pattern(goal, sample, whole)
    modifies bytes
    ensures bytes[from..] == goal && bytes[..from] == old(bytes[..from])
  {
    FillChunks(sample, bytes, from, whole, goal);
    for k := whole to bytes.Length - from
      invariant bytes[from..from + k] == goal[..k] && bytes[..from] == old(bytes[..from])
    {
      bytes[from + k] := 0;
    }
    assert bytes[from..] == bytes[from..from + |goal|];
  }

  /** The whole samples. */
  method FillChunks(sample: seq<Byte>, bytes: array<Byte>, from: nat, whole: nat, ghost goal: seq<Byte>)
    requires from <= bytes.Length && |goal| == bytes.Length - from && Pattern(goal, sample, whole)
    modifies bytes
    ensures bytes[from..from + whole] == goal[..whole] && bytes[..from] == old(bytes[..from])
  {
    var at := 0;
    while at < whole
      invariant 0 <= at <= whole && at % |sample| == 0
      invariant bytes[from..from + at] == goal[..at] && bytes[..from] == old(bytes[..from])
    {
      var next := at + |sample|;
      assert next <= whole && next % |sample| == 0 && goal[at..next] == sample;
      CopyChunk(sample, bytes, from + at, from);
      assert goal[..next] == goal[..at] + goal[at..next];
      assert bytes[from..from + next] == bytes[from..from + at] + bytes[from + at..from + next];
      at := next;
    }
  }

  method CopyChunk(chunk: seq<Byte>, bytes: array<Byte>, at: nat, ghost from: nat)
    requires from <= at && at + |chunk| <= bytes.Length
    modifies bytes
    ensures bytes[at..at + |chunk|] == chunk
    ensures bytes[from..at] == old(bytes[from..at]) && bytes[..from] == old(bytes[..from])
  {
    for k := 0 to |chunk|
      invariant bytes[at..at + k] == chunk[..k]
      invariant bytes[from..at] == old(bytes[from..at]) && bytes[..from] == old(bytes[..from])
    {
      bytes[at + k] := chunk[k];
    }
  }

  /** Every whole chunk is the sample. */
  lemma RepeatedChunk(sample: seq<Byte>, n: nat, at: nat)
    requires 0 < |sample| && at % |sample| == 0 && at < n / |sample| * |sample|
    ensures var w := |sample|;
            && at + w <= n / w * w <= n && (at + w) % w == 0
            && Repeated(sample, n)[at..at + w] == sample
  {
    var w := |sample|;
    ChunkInside(at, n, w);
    var chunk := Repeated(sample, n)[at..at + w];
    forall k | 0 <= k < w
      ensures chunk[k] == sample[k]
    {
      DivModUnique(at + k, w, at / w, k);
    }
  }

  lemma ChunkInside(at: nat, n: nat, w: nat)
    requires 0 < w && at % w == 0 && at < n / w * w
    ensures at + w <= n / w * w <= n
    ensures (at + w) % w == 0
  {
    var q := at / w;
    assert at == q * w;
    if n / w <= q {
      MulMonotone(n / w, q, w);
    }
    MulMonotone(q + 1, n / w, w);
    assert (q + 1) * w == at + w;
    DivModUnique(at + w, w, q + 1, 0);
  }

  /** One action on the other side of the ring. */
  datatype Turn = DeviceError | Pull(bytes: nat)

  /** What the other side does around one push: before it, and between it and the
      writer's look at the lost flag. */
  datatype Round = Round(before: seq<Turn>, after: seq<Turn>)

  datatype WriteOutcome = Written | DeviceLost | StillWaiting | RefusedLost | RefusedClosed | RefusedBlock

  /** The checks before the loop, in their order. */
  function Refusal(closed: bool, lost: bool, sameSpec: bool, bytes: nat, f: Format): Option<WriteOutcome>
    requires f.Valid()
  {
    if closed then Some(RefusedClosed)
    else if lost then Some(RefusedLost)
    else if !sameSpec || bytes % f.frameBytes != 0 then Some(RefusedBlock)
    else None
  }

  function EventOf(turn: Turn): Event {
    match turn
    case DeviceError => Lose
    case Pull(bytes) => Callback(bytes)
  }

  function EventsOf(turns: seq<Turn>): (events: seq<Event>)
    ensures |events| == |turns|
  {
    seq(|turns|, i requires 0 <= i < |turns| => EventOf(turns[i]))
  }

  /** The device's events in these rounds, in order. */
  function RoundEvents(rounds: seq<Round>): seq<Event> {
    if |rounds| == 0 then []
    else
      var last := rounds[|rounds| - 1];
      RoundEvents(rounds[..|rounds| - 1]) + EventsOf(last.before) + EventsOf(last.after)
  }

  /** The device's events of a run, in order. */
  function DeviceSide(events: seq<Event>): seq<Event> {
    if |events| == 0 then []
    else
      var last := events[|events| - 1];
      DeviceSide(events[..|events| - 1]) + (if last.Lose? || last.Callback? then [last] else [])
  }

  lemma DeviceSideThen(events: seq<Event>, e: Event)
    ensures DeviceSide(events + [e]) == DeviceSide(events) + (if e.Lose? || e.Callback? then [e] else [])
  {
    assert (events + [e])[..|events|] == events;
  }

  lemma SubmitSide(block: seq<Byte>)
    ensures DeviceSide([Submit(block)]) == []
  {
    assert [Submit(block)][..0] == [];
  }

  /** Bytes these turns ask for. */
  function Asked(turns: seq<Turn>): nat {
    if |turns| == 0 then 0
    else
      var last := turns[|turns| - 1];
      Asked(turns[..|turns| - 1]) + (if last.Pull? then last.bytes else 0)
  }

  predicate Fails(turns: seq<Turn>) {
    exists k :: 0 <= k < |turns| && turns[k] == DeviceError
  }

  /** The device reports an error in one of these rounds. */
  predicate Errs(rounds: seq<Round>) {
    exists k :: 0 <= k < |rounds| && (Fails(rounds[k].before) || Fails(rounds[k].after))
  }

  /** Room that push k finds while the block lasts: the first in the ring as the write
      began, every other one in a ring that the push before it left full. */
  function Room(queue: nat, rounds: seq<Round>, k: nat, capacity: nat): nat
    requires queue <= capacity && k < |rounds|
  {
    if k == 0 then capacity - queue + Min(queue, Asked(rounds[0].before))
    else Min(capacity, Asked(rounds[k - 1].after) + Asked(rounds[k].before))
  }

  /** Bytes the first k pushes can move. */
  function Accepted(queue: nat, rounds: seq<Round>, k: nat, capacity: nat): nat
    requires queue <= capacity && k <= |rounds|
  {
    if k == 0 then 0 else Accepted(queue, rounds, k - 1, capacity) + Room(queue, rounds, k - 1, capacity)
  }

  /** The writer gives up in round k: nothing was moved and the device is lost. */
  predicate GivesUp(queue: nat, rounds: seq<Round>, k: nat, capacity: nat)
    requires queue <= capacity && k < |rounds|
  {
    Room(queue, rounds, k, capacity) == 0 && Errs(rounds[..k + 1])
  }

  /** Rounds before it gives up, or all of them. */
  function Lasts(queue: nat, rounds: seq<Round>, k: nat, capacity: nat): (n: nat)
    requires queue <= capacity && k <= |rounds|
    ensures k <= n <= |rounds| && (n < |rounds| ==> GivesUp(queue, rounds, n, capacity))
    ensures forall i | k <= i < n :: !GivesUp(queue, rounds, i, capacity)
    decreases |rounds| - k
  {
    if k == |rounds| || GivesUp(queue, rounds, k, capacity) then k else Lasts(queue, rounds, k + 1, capacity)
  }

  /** How a write ends: written when the pushes before it would give up find enough
      room, given up there otherwise, still waiting if it never would. */
  function Outcome(queue: nat, block: nat, rounds: seq<Round>, capacity: nat): WriteOutcome
    requires queue <= capacity
  {
    var n := Lasts(queue, rounds, 0, capacity);
    if block <= Accepted(queue, rounds, n, capacity) then Written
    else if n < |rounds| then DeviceLost
    else StillWaiting
  }

  lemma {:induction false} AcceptedGrows(queue: nat, rounds: seq<Round>, k: nat, n: nat, capacity: nat)
    requires queue <= capacity && k <= n <= |rounds|
    ensures Accepted(queue, rounds, k, capacity) <= Accepted(queue, rounds, n, capacity)
    decreases n
  {
    if k < n {
      AcceptedGrows(queue, rounds, k, n - 1, capacity);
    }
  }

  /** A device that takes something before every push gets the whole block, whatever
      errors it reports meanwhile. */
  lemma {:induction false} PullingDeviceGetsAll(queue: nat, block: nat, rounds: seq<Round>, capacity: nat)
    requires queue <= capacity && 0 < capacity && block <= |rounds|
    requires forall r | r in rounds :: Asked(r.before) > 0
    ensures Outcome(queue, block, rounds, capacity) == Written
  {
    hide Asked, Errs;
    var n := Lasts(queue, rounds, 0, capacity);
    forall k | 0 <= k < |rounds| ensures Room(queue, rounds, k, capacity) > 0 {
      assert rounds[k] in rounds && rounds[0] in rounds;
    }
    AcceptedAtLeast(queue, rounds, n, capacity);
  }

  lemma {:induction false} AcceptedAtLeast(queue: nat, rounds: seq<Round>, n: nat, capacity: nat)
    requires queue <= capacity && n <= |rounds|
    requires forall k | 0 <= k < n :: Room(queue, rounds, k, capacity) > 0
    ensures n <= Accepted(queue, rounds, n, capacity)
    decreases n
  {
    if n > 0 {
      AcceptedAtLeast(queue, rounds, n - 1, capacity);
    }
  }

  /** One more turn of a sequence. */
  lemma TurnsThen(turns: seq<Turn>, k: nat)
    requires k < |turns|
    ensures EventsOf(turns[..k + 1]) == EventsOf(turns[..k]) + [EventOf(turns[k])]
    ensures Asked(turns[..k + 1]) == Asked(turns[..k]) + (if turns[k].Pull? then turns[k].bytes else 0)
    ensures Fails(turns[..k + 1]) <==> Fails(turns[..k]) || turns[k] == DeviceError
  {
    assert turns[..k + 1][..k] == turns[..k];
    if Fails(turns[..k]) {
      var i :| 0 <= i < k && turns[..k][i] == DeviceError;
      assert turns[..k + 1][i] == DeviceError;
    }
    if turns[k] == DeviceError {
      assert turns[..k + 1][k] == DeviceError;
    }
  }

  /** One more round. */
  lemma RoundsThen(rounds: seq<Round>, k: nat)
    requires k < |rounds|
    ensures RoundEvents(rounds[..k + 1])
         == RoundEvents(rounds[..k]) + EventsOf(rounds[k].before) + EventsOf(rounds[k].after)
    ensures Errs(rounds[..k + 1]) <==> Errs(rounds[..k]) || Fails(rounds[k].before) || Fails(rounds[k].after)
  {
    hide Fails, EventsOf;
    var more := rounds[..k + 1];
    assert more[..k] == rounds[..k] && more[k] == rounds[k];
    if Errs(rounds[..k]) {
      var i :| 0 <= i < k && (Fails(rounds[..k][i].before) || Fails(rounds[..k][i].after));
      assert more[i] == rounds[i];
    }
  }

  /** A write's events: its block is submitted first and nothing after it. */
  predicate SubmitsOnly(events: seq<Event>, block: seq<Byte>) {
    |events| > 0 && events[0] == Submit(block) && forall k | 0 < k < |events| :: !events[k].Submit?
  }

  lemma SubmitsNoMore(events: seq<Event>, more: seq<Event>, block: seq<Byte>)
    requires SubmitsOnly(events, block) && |events| <= |more| && more[..|events|] == events
    requires forall i | |events| <= i < |more| :: !more[i].Submit?
    ensures SubmitsOnly(more, block)
  {
    assert forall i | 0 <= i < |events| :: more[i] == events[i];
  }

  predicate Framed(turns: seq<Turn>, f: Format)
    requires f.Valid()
  {
    forall t | t in turns :: t.Pull? ==> t.bytes % f.frameBytes == 0
  }

  /** What turns do to the state, as far as the writer can tell. */
  ghost predicate After(s: State, turns: seq<Turn>, u: State) {
    && |u.queue| == |s.queue| - Min(|s.queue|, Asked(turns))
    && u.lost == (s.lost || Fails(turns))
    && u == s.(queue := u.queue, lost := u.lost, delivered := u.delivered)
  }

  lemma NoTurns(turns: seq<Turn>, events: seq<Event>)
    ensures Asked(turns[..0]) == 0 && EventsOf(turns[..0]) == [] && !Fails(turns[..0])
    ensures events + EventsOf(turns[..0]) == events
    ensures DeviceSide(events) + EventsOf(turns[..0]) == DeviceSide(events)
  {
  }

  lemma NoRounds(rounds: seq<Round>)
    ensures RoundEvents(rounds[..0]) == [] && !Errs(rounds[..0])
  {
  }

  /** Push k moves the room it finds, or what is left of the block, and in the former
      case leaves the ring full. */
  lemma OneMoreRound(queue: nat, rounds: seq<Round>, k: nat, capacity: nat, level: nat, block: nat, offset: nat,
                     pushed: nat)
    requires queue <= capacity && k < |rounds| && offset == Min(block, Accepted(queue, rounds, k, capacity))
    requires offset < block && level == if k == 0 then queue else capacity - Min(capacity, Asked(rounds[k - 1].after))
    requires pushed == Min(capacity - (level - Min(level, Asked(rounds[k].before))), block - offset)
    requires k <= Lasts(queue, rounds, 0, capacity)
    ensures offset + pushed == Min(block, Accepted(queue, rounds, k + 1, capacity))
    ensures offset + pushed < block ==> level - Min(level, Asked(rounds[k].before)) + pushed == capacity
    ensures pushed == 0 && Errs(rounds[..k + 1]) ==>
              Lasts(queue, rounds, 0, capacity) == k && Outcome(queue, block, rounds, capacity) == DeviceLost
    ensures !(pushed == 0 && Errs(rounds[..k + 1])) ==> k + 1 <= Lasts(queue, rounds, 0, capacity)
  {
    hide Asked, Errs;
    if pushed == 0 && Errs(rounds[..k + 1]) {
      assert GivesUp(queue, rounds, k, capacity);
      assert Lasts(queue, rounds, 0, capacity) == k;
    }
  }

  /** The loop's other two ends. */
  lemma EndsOtherwise(queue: nat, rounds: seq<Round>, k: nat, capacity: nat, block: nat)
    requires queue <= capacity && k <= Lasts(queue, rounds, 0, capacity)
    ensures block <= Accepted(queue, rounds, k, capacity) ==> Outcome(queue, block, rounds, capacity) == Written
    ensures k == |rounds| && Accepted(queue, rounds, k, capacity) < block ==>
              Outcome(queue, block, rounds, capacity) == StillWaiting
  {
    AcceptedGrows(queue, rounds, k, Lasts(queue, rounds, 0, capacity), capacity);
  }

  /** Turns up to k, then turn k. */
  lemma OneMoreTurn(s: State, turns: seq<Turn>, k: nat, u: State, f: Format)
    requires f.Valid() && k < |turns| && After(s, turns[..k], u) && Enabled(u, EventOf(turns[k]), f)
    ensures After(s, turns[..k + 1], Next(u, EventOf(turns[k]), f))
  {
    TurnTakes(u, turns[k], f);
    hide Next, Enabled, Asked, Fails;
    TurnsThen(turns, k);
  }

  /** One turn takes what there is of what it asks for. */
  lemma TurnTakes(u: State, turn: Turn, f: Format)
    requires f.Valid() && Enabled(u, EventOf(turn), f)
    ensures var v := Next(u, EventOf(turn), f);
            && |v.queue| == |u.queue| - Min(|u.queue|, if turn.Pull? then turn.bytes else 0)
            && v.lost == (u.lost || turn == DeviceError)
            && v == u.(queue := v.queue, lost := v.lost, delivered := v.delivered)
  {
    hide SilenceBytes, AsPlayed, AsQuiet;
  }

  /** The binding: its ring, the lost flag, and the protocol state they stand for. */
  class CpalOutput {
    const format: Format
    const ring: AudioRing
    var lost: bool
    var closed: bool
    ghost var state: State

    ghost predicate Valid()
      reads this, ring
    {
      format.Valid() && Inv(state, format) && ring.capacity == format.Capacity()
      && ring.queue == state.queue && lost == state.lost
    }

    constructor (format: Format)
      requires format.Valid()
      ensures Valid() && state == Start && this.format == format && !closed && fresh(ring)
    {
      this.format, lost, closed, state := format, false, false, Start;
      ring := new AudioRing(format.frameBytes * 16384);
      new;
      InvStart(format);
    }

    /** The audio callback: what the ring has, then silence. */
    method AudioCallback(data: array<Byte>)
      requires Valid() && data.Length % format.frameBytes == 0
      modifies this`state, ring, data
      ensures Valid() && state == Next(old(state), Callback(data.Length), format)
      ensures var popped := Min(|old(state.queue)|, data.Length);
              data[..] == old(state.queue)[..popped] + SilenceBytes(format.encoding, format.host, data.Length - popped)
    {
      hide Aligned, InOrder, SilenceBytes;
      var popped := ring.PopSlice(data);
      if popped < data.Length {
        FillSilence(format.encoding, format.host, data, popped);
      }
      InvNext(state, Callback(data.Length), format);
      state := Next(state, Callback(data.Length), format);
      assert data[..] == data[..popped] + data[popped..];
    }

    method StreamError()
      requires Valid()
      modifies this`state, this`lost
      ensures Valid() && state == Next(old(state), Lose, format)
    {
      lost := true;
      InvNext(state, Lose, format);
      state := Next(state, Lose, format);
    }

    /** One turn of the other side, recorded as its protocol event. */
    method TakeTurn(turn: Turn, ghost start: State, ghost events: seq<Event>) returns (ghost more: seq<Event>)
      requires Valid() && (turn.Pull? ==> turn.bytes % format.frameBytes == 0) && Run(start, events, format, state)
      modifies this`state, this`lost, ring
      ensures Valid() && state == Next(old(state), EventOf(turn), format) && Run(start, more, format, state)
      ensures more == events + [EventOf(turn)] && DeviceSide(more) == DeviceSide(events) + [EventOf(turn)]
    {
      hide Aligned, InOrder, SilenceBytes, Run;
      RunThen(start, events, state, EventOf(turn), format);
      DeviceSideThen(events, EventOf(turn));
      more := events + [EventOf(turn)];
      match turn
      case DeviceError => StreamError();
      case Pull(bytes) =>
        var data := new Byte[bytes](_ => 0);
        AudioCallback(data);
    }

    /** The other side's turns between two steps of the writer. */
    method TakeTurns(turns: seq<Turn>, ghost start: State, ghost events: seq<Event>) returns (ghost more: seq<Event>)
      requires Valid() && Framed(turns, format) && Run(start, events, format, state)
      modifies this`state, this`lost, ring
      ensures Valid() && After(old(state), turns, state) && Run(start, more, format, state)
      ensures more == events + EventsOf(turns) && DeviceSide(more) == DeviceSide(events) + EventsOf(turns)
    {
      hide Aligned, InOrder, Run, EventsOf, DeviceSide, SilenceBytes, Asked, Fails;
      more := events;
      NoTurns(turns, events);
      for k := 0 to |turns|
        invariant Valid() && After(old(state), turns[..k], state) && Run(start, more, format, state)
        invariant more == events + EventsOf(turns[..k])
        invariant DeviceSide(more) == DeviceSide(events) + EventsOf(turns[..k])
      {
        ghost var was := state;
        assert turns[k] in turns;
        more := TakeTurn(turns[k], start, more);
        TurnsThen(turns, k);
        OneMoreTurn(old(state), turns, k, was, format);
      }
      assert turns[..|turns|] == turns;
    }

    /** One push of the loop. */
    method PushOnce(block: seq<Byte>, offset: nat, ghost start: State, ghost events: seq<Event>)
      returns (pushed: nat, ghost more: seq<Event>)
      requires Valid() && offset < |block| && state.rest == block[offset..] && Run(start, events, format, state)
      modifies this`state, ring
      ensures Valid() && Run(start, more, format, state) && more == events + [Push]
      ensures pushed == Min(format.Capacity() - |old(state.queue)|, |block| - offset)
      ensures state == old(state).(queue := state.queue, rest := block[offset + pushed..], stalled := pushed == 0)
      ensures |state.queue| == |old(state.queue)| + pushed && DeviceSide(more) == DeviceSide(events)
    {
      hide InOrder, FrameAligned, Run;
      DeviceSideThen(events, Push);
      InvNext(state, Push, format);
      RunThen(start, events, state, Push, format);
      more := events + [Push];
      ghost var was := state;
      pushed := ring.PushSlice(block[offset..]);
      state := Next(state, Push, format);
      assert block[offset..][pushed..] == block[offset + pushed..];
    }

    /** One push with what the other side does around it. */
    method OneRound(block: seq<Byte>, offset: nat, round: Round, ghost start: State, ghost events: seq<Event>)
      returns (pushed: nat, ghost more: seq<Event>)
      requires Valid() && offset < |block| && state.rest == block[offset..] && Run(start, events, format, state)
      requires Framed(round.before, format) && Framed(round.after, format)
      modifies this`state, this`lost, ring
      ensures Valid() && Run(start, more, format, state)
      ensures |events| <= |more| && more[..|events|] == events
              && forall i | |events| <= i < |more| :: !more[i].Submit?
      ensures DeviceSide(more) == DeviceSide(events) + EventsOf(round.before) + EventsOf(round.after)
      ensures var level := |old(state.queue)| - Min(|old(state.queue)|, Asked(round.before));
              && level <= format.Capacity() && pushed == Min(format.Capacity() - level, |block| - offset)
              && |state.queue| == level + pushed - Min(level + pushed, Asked(round.after))
      ensures state.rest == block[offset + pushed..] && state.stalled == (pushed == 0)
      ensures state.submitted == old(state.submitted) && state.gaveUp == old(state.gaveUp)
      ensures lost == (old(lost) || Fails(round.before) || Fails(round.after))
    {
      hide Aligned, InOrder, Run, Format.Capacity, Fails, Asked, DeviceSide, Framed;
      RingBounded();
      more := TakeTurns(round.before, start, events);
      RingBounded();
      pushed, more := PushOnce(block, offset, start, more);
      more := TakeTurns(round.after, start, more);
    }

    /** write: its checks, which change nothing when they refuse, and its loop. A
        write is a run of the protocol: it submits the block, meets the other side's
        rounds in their order, and otherwise only pushes or gives up. It ends as the
        room its pushes find decides. */
    method Write(block: seq<Byte>, sameSpec: bool, rounds: seq<Round>)
      returns (outcome: WriteOutcome, ghost events: seq<Event>, ghost used: nat)
      requires Valid() && state.rest == []
      requires forall r | r in rounds :: Framed(r.before, format) && Framed(r.after, format)
      modifies this`state, this`lost, ring
      ensures Valid() && Run(old(state), events, format, state)
      ensures |old(state.queue)| <= format.Capacity()
      ensures var refused := Refusal(closed, old(lost), sameSpec, |block|, format);
              if refused.Some? then outcome == refused.value && events == [] && used == 0
              else
                && SubmitsOnly(events, block)
                && used <= |rounds| && DeviceSide(events) == RoundEvents(rounds[..used])
                && outcome == Outcome(|old(state.queue)|, |block|, rounds, format.Capacity())
                && state.submitted == old(state.submitted) + block
      ensures outcome == Written ==> state.rest == [] && !state.gaveUp
      ensures outcome == DeviceLost ==> lost && state.gaveUp
      ensures outcome == StillWaiting ==> state.rest != [] && !state.gaveUp && used == |rounds|
    {
      RingBounded();
      hide Aligned, Run, Next, Format.Capacity, Outcome, RoundEvents, DeviceSide;
      events, used := [], 0;
      RunNothing(state, format);
      if closed {
        return RefusedClosed, events, used;
      }
      if lost {
        return RefusedLost, events, used;
      }
      if !sameSpec || |block| % format.frameBytes != 0 {
        return RefusedBlock, events, used;
      }
      outcome, events, used := WriteLoop(block, rounds);
    }

    /** Where the loop is after k rounds. */
    ghost predicate Midway(start: State, block: seq<Byte>, rounds: seq<Round>, offset: nat, k: nat, events: seq<Event>)
      reads this
      requires format.Valid() && |start.queue| <= format.Capacity()
    {
      var queue, capacity := |start.queue|, format.Capacity();
      && k <= |rounds| && offset == Min(|block|, Accepted(queue, rounds, k, capacity))
      && state.rest == block[offset..] && !state.gaveUp && Run(start, events, format, state)
      && state.submitted == start.submitted + block && SubmitsOnly(events, block)
      && DeviceSide(events) == RoundEvents(rounds[..k]) && lost == Errs(rounds[..k])
      && (offset < |block| ==>
            |state.queue| == if k == 0 then queue else capacity - Min(capacity, Asked(rounds[k - 1].after)))
    }

    /** One time through the loop. */
    method NextRound(block: seq<Byte>, rounds: seq<Round>, offset: nat, k: nat, ghost start: State,
                     ghost events: seq<Event>)
      returns (pushed: nat, ghost more: seq<Event>)
      requires Valid() && |start.queue| <= format.Capacity() && Midway(start, block, rounds, offset, k, events)
      requires offset < |block| && k < |rounds| && k <= Lasts(|start.queue|, rounds, 0, format.Capacity())
      requires Framed(rounds[k].before, format) && Framed(rounds[k].after, format)
      modifies this`state, this`lost, ring
      ensures Valid() && Midway(start, block, rounds, offset + pushed, k + 1, more) && pushed <= |block| - offset
      ensures state.stalled == (pushed == 0) && state.rest == block[offset + pushed..]
      ensures if pushed == 0 && lost then Outcome(|start.queue|, |block|, rounds, format.Capacity()) == DeviceLost
              else k + 1 <= Lasts(|start.queue|, rounds, 0, format.Capacity())
    {
      hide Aligned, InOrder, Run, Format.Capacity, Errs, Fails, Asked, RoundEvents, EventsOf, DeviceSide, Framed,
           SubmitsOnly, Outcome, Accepted;
      RoundsThen(rounds, k);
      ghost var level := |state.queue|;
      pushed, more := OneRound(block, offset, rounds[k], start, events);
      OneMoreRound(|start.queue|, rounds, k, format.Capacity(), level, |block|, offset, pushed);
      SubmitsNoMore(events, more, block);
    }

    /** What a write that went through its loop leaves behind. */
    ghost predicate Ended(start: State, block: seq<Byte>, rounds: seq<Round>, outcome: WriteOutcome,
                          events: seq<Event>, used: nat)
      reads this
      requires format.Valid() && |start.queue| <= format.Capacity()
    {
      && Run(start, events, format, state) && SubmitsOnly(events, block)
      && used <= |rounds| && DeviceSide(events) == RoundEvents(rounds[..used])
      && outcome == Outcome(|start.queue|, |block|, rounds, format.Capacity())
      && state.submitted == start.submitted + block
      && (outcome == Written ==> state.rest == [] && !state.gaveUp)
      && (outcome == DeviceLost ==> lost && state.gaveUp)
      && (outcome == StillWaiting ==> state.rest != [] && !state.gaveUp && used == |rounds|)
    }

    method WriteLoop(block: seq<Byte>, rounds: seq<Round>)
      returns (outcome: WriteOutcome, ghost events: seq<Event>, ghost used: nat)
      requires Valid() && !lost && !state.gaveUp && state.rest == [] && |block| % format.frameBytes == 0
      requires forall r | r in rounds :: Framed(r.before, format) && Framed(r.after, format)
      requires |state.queue| <= format.Capacity()
      modifies this`state, this`lost, ring
      ensures Valid() && Ended(old(state), block, rounds, outcome, events, used)
    {
      ghost var start := state;
      events := BeginBlock(block);
      NoRounds(rounds);
      hide Run, Framed, Outcome, SubmitsOnly, DeviceSide, RoundEvents, Errs, Ended, Aligned, InOrder;
      assert Midway(start, block, rounds, 0, 0, events);
      outcome, events, used := PushRounds(block, rounds, start, events);
    }

    /** The loop. The other side acts before each push and before the look at the lost
        flag that follows a push which moved nothing. When the given rounds are over
        with bytes left, the writer is still there. */
    method PushRounds(block: seq<Byte>, rounds: seq<Round>, ghost start: State, ghost begun: seq<Event>)
      returns (outcome: WriteOutcome, ghost events: seq<Event>, ghost used: nat)
      requires Valid() && |start.queue| <= format.Capacity() && Midway(start, block, rounds, 0, 0, begun)
      requires format.Valid() && forall r | r in rounds :: Framed(r.before, format) && Framed(r.after, format)
      modifies this`state, this`lost, ring
      ensures Valid() && Ended(start, block, rounds, outcome, events, used)
    {
      hide *;
      events := begun;
      var offset: nat, k: nat := 0, 0;
      while offset < |block|
        invariant Valid() && Midway(start, block, rounds, offset, k, events) && offset <= |block| && k <= |rounds|
        invariant k <= Lasts(|start.queue|, rounds, 0, format.Capacity())
        decreases |rounds| - k
      {
        if k == |rounds| {
          MidwayEnds(start, block, rounds, offset, k, events);
          return StillWaiting, events, k;
        }
        assert rounds[k] in rounds;
        var pushed;
        pushed, events := NextRound(block, rounds, offset, k, start, events);
        offset, k := offset + pushed, k + 1;
        if pushed == 0 && lost {
          events := GiveBlockUp(block, rounds, offset, k, start, events);
          return DeviceLost, events, k;
        }
      }
      MidwayEnds(start, block, rounds, offset, k, events);
      return Written, events, k;
    }

    /** The end of a write that gives up. */
    ghost method GiveBlockUp(block: seq<Byte>, rounds: seq<Round>, offset: nat, k: nat, start: State,
                             events: seq<Event>)
      returns (more: seq<Event>)
      requires Valid() && |start.queue| <= format.Capacity() && Midway(start, block, rounds, offset, k, events)
      requires lost && state.stalled && offset < |block| && k <= |rounds|
      requires Outcome(|start.queue|, |block|, rounds, format.Capacity()) == DeviceLost
      modifies this`state
      ensures Valid() && Ended(start, block, rounds, DeviceLost, more, k)
    {
      hide Run, Format.Capacity, Errs, Asked, RoundEvents, DeviceSide, SubmitsOnly, Outcome, Aligned, InOrder;
      more := AbandonBlock(start, events);
      SubmitsNoMore(events, more, block);
    }

    /** The loop's other two ends. */
    lemma MidwayEnds(start: State, block: seq<Byte>, rounds: seq<Round>, offset: nat, k: nat, events: seq<Event>)
      requires Valid() && |start.queue| <= format.Capacity() && Midway(start, block, rounds, offset, k, events)
      requires k <= |rounds| && k <= Lasts(|start.queue|, rounds, 0, format.Capacity())
      ensures offset == |block| ==> Ended(start, block, rounds, Written, events, k)
      ensures offset < |block| && k == |rounds| ==> Ended(start, block, rounds, StillWaiting, events, k)
    {
      hide Run, Format.Capacity, Errs, Asked, RoundEvents, DeviceSide, SubmitsOnly, Outcome, Aligned, InOrder;
      EndsOtherwise(|start.queue|, rounds, k, format.Capacity(), |block|);
    }

    lemma RingBounded()
      requires Valid()
      ensures |state.queue| <= format.Capacity()
    {
    }

    /** The start of a write, as its protocol event. */
    ghost method BeginBlock(block: seq<Byte>) returns (events: seq<Event>)
      requires Valid() && !state.lost && !state.gaveUp && state.rest == [] && |block| % format.frameBytes == 0
      modifies this`state
      ensures Valid() && Run(old(state), events, format, state)
      ensures SubmitsOnly(events, block) && DeviceSide(events) == []
      ensures state == old(state).(rest := block, stalled := false, submitted := old(state.submitted) + block)
    {
      hide Aligned, InOrder;
      InvNext(state, Submit(block), format);
      SubmitSide(block);
      events := [Submit(block)];
      assert events[1..] == [];
      state := Next(state, Submit(block), format);
    }

    /** Giving the rest of the block up. */
    ghost method AbandonBlock(start: State, events: seq<Event>) returns (more: seq<Event>)
      requires Valid() && Run(start, events, format, state)
      requires state.rest != [] && state.lost && state.stalled
      modifies this`state
      ensures Valid() && Run(start, more, format, state) && more == events + [GiveUp]
      ensures DeviceSide(more) == DeviceSide(events)
      ensures state == old(state).(rest := [], gaveUp := true)
    {
      hide Aligned, InOrder, Run;
      InvNext(state, GiveUp, format);
      RunThen(start, events, state, GiveUp, format);
      DeviceSideThen(events, GiveUp);
      more := events + [GiveUp];
      state := Next(state, GiveUp, format);
    }
  }
}

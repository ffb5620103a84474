/** One PCM sample to bytes and back: write_sample, write_integer and
    copy_ordered of crates/around-engine/src/filter_chain.rs, and the per-sample
    decode of crates/around-codec-wav/src/lib.rs. Samples are reals; the scale
    factors are the values the source's f64 constants really have. */
module SampleCodec {
  import opened Arith
  import opened Pcm
  import opened Bytes

  type Bytes4 = b: seq<Byte> | |b| == 4 witness [0, 0, 0, 0]
  type Bytes8 = b: seq<Byte> | |b| == 8 witness [0, 0, 0, 0, 0, 0, 0, 0]

  /** Native float representations, least significant byte first. */
  datatype Floats = Floats(f32: real -> Bytes4, f64: real -> Bytes8)

  /** Where samples are written: the build target and its float bytes. */
  datatype Target = Target(host: Host, floats: Floats)

  // ------------------------------------------------------------ the encoder

  /** f64::round: to the nearest integer, halves away from zero. */
  function Round(x: real): int {
    if x < 0.0 then -((-x + 0.5).Floor) else (x + 0.5).Floor
  }

  function ClampUnit(v: real): (c: real)
    ensures -1.0 <= c <= 1.0 && (-1.0 <= v <= 1.0 ==> c == v)
  {
    if v < -1.0 then -1.0 else if v > 1.0 then 1.0 else v
  }

  function ClampInt(n: int, lo: int, hi: int): int {
    if n < lo then lo else if n > hi then hi else n
  }

  /** 2^(bits - 1). */
  function Half(enc: PcmEncoding): int {
    match enc
    case I8 | U8s => 0x80
    case I16 | U16s => 0x8000
    case I24 | U24s => 0x80_0000
    case I32 | U32s | F32 => 0x8000_0000
    case I48 | U48s => 0x8000_0000_0000
    case I64 | U64s | F64 => 0x8000_0000_0000_0000
  }

  /** The positive scale as an f64: 2^(b-1) - 1, or 2^b - 1 when unsigned. At 64
      bits that integer has no f64 and the constant is the power of two. */
  function Scale(enc: PcmEncoding): int {
    match enc
    case I64 => 0x8000_0000_0000_0000
    case U64s => 0x1_0000_0000_0000_0000
    case _ => if enc.IsUnsigned() then 2 * Half(enc) - 1 else Half(enc) - 1
  }

  /** A clamped value in integer steps, before rounding. */
  function Scaled(v: real, half: real, scale: real, unsigned: bool): real {
    if unsigned then (v + 1.0) * 0.5 * scale
    else if v < 0.0 then v * half
    else v * scale
  }

  /** The integer write_sample computes from a clamped value and its scales. */
  function Quantized(v: real, half: int, scale: int, unsigned: bool): int {
    ClampInt(Round(Scaled(v, half as real, scale as real, unsigned)), if unsigned then 0 else -half, scale)
  }

  function EncodedInteger(v: real, enc: PcmEncoding): int
    requires -1.0 <= v <= 1.0
  {
    Quantized(v, Half(enc), Scale(enc), enc.IsUnsigned())
  }

  const TWO128: int := 0x1_0000_0000_0000_0000_0000_0000_0000_0000

  /** `as u128` of an i128. */
  function AsU128(n: int): nat
    requires -TWO128 <= n
  {
    if n < 0 then n + TWO128 else n
  }

  /** Low `width` bytes of a 16-byte little-endian integer, in either order. */
  function WriteInteger(value: nat, width: nat, little: bool): (b: seq<Byte>)
    requires width <= 16
    ensures |b| == width
  {
    var bytes := ToLe(value, 16)[..width];
    if little then bytes else Reverse(bytes)
  }

  function NativeBytes(littleBytes: seq<Byte>, host: Host): seq<Byte> {
    if host == LittleHost then littleBytes else Reverse(littleBytes)
  }

  function CopyOrdered(native: seq<Byte>, little: bool, host: Host): (b: seq<Byte>)
    ensures |b| == |native|
  {
    if little == (host == LittleHost) then native else Reverse(native)
  }

  /** write_sample: the bytes one sample becomes. */
  function SampleBytes(value: real, enc: PcmEncoding, order: ByteOrder, target: Target): (b: seq<Byte>)
    ensures |b| == enc.BytesPerSample()
  {
    var v := ClampUnit(value);
    var little := LittleFirst(order, target.host);
    if enc == F32 then CopyOrdered(NativeBytes(target.floats.f32(v), target.host), little, target.host)
    else if enc == F64 then CopyOrdered(NativeBytes(target.floats.f64(v), target.host), little, target.host)
    else WriteInteger(IntegerAsU128(v, enc), enc.BytesPerSample(), little)
  }

  function IntegerAsU128(v: real, enc: PcmEncoding): nat
    requires -1.0 <= v <= 1.0
  {
    AsU128(EncodedInteger(v, enc))
  }

  // ------------------------------------------------------- reading them back

  /** Two's-complement value of little-endian bytes. */
  function SignedLe(b: seq<Byte>): int {
    var n := FromLe(b);
    if 2 * n >= Pow256(|b|) then n - Pow256(|b|) else n
  }

  /** The integer a reader of this encoding sees, in units of 1 / Half. */
  function DecodedWith(b: seq<Byte>, half: int, unsigned: bool): int {
    if unsigned then FromLe(b) - half else SignedLe(b)
  }

  function DecodedInteger(b: seq<Byte>, enc: PcmEncoding): int {
    DecodedWith(b, Half(enc), enc.IsUnsigned())
  }

  /** What a reader sees of a sample written least significant byte first. */
  function Stored(value: real, enc: PcmEncoding, target: Target): int {
    DecodedInteger(SampleBytes(value, enc, Little, target), enc)
  }

  /** A sample so close to full scale that a 64-bit encoding rounds it to the
      power of two itself, one more than its bytes can hold. */
  predicate Overflows(value: real, enc: PcmEncoding) {
    enc.Bits() == 64 && ClampUnit(value) >= 1.0 - 1.0 / 18446744073709551616.0
  }

  lemma Pow256Values()
    ensures Pow256(1) == 0x100 && Pow256(2) == 0x1_0000 && Pow256(3) == 0x100_0000
    ensures Pow256(4) == 0x1_0000_0000 && Pow256(6) == 0x1_0000_0000_0000
    ensures Pow256(8) == 0x1_0000_0000_0000_0000
  {
    assert Pow256(2) == 256 * Pow256(1);
    assert Pow256(3) == 256 * Pow256(2);
    assert Pow256(4) == 256 * Pow256(3);
    assert Pow256(5) == 256 * Pow256(4);
    assert Pow256(6) == 256 * Pow256(5);
    assert Pow256(7) == 256 * Pow256(6);
    assert Pow256(8) == 256 * Pow256(7);
  }

  lemma Widths(enc: PcmEncoding)
    ensures Pow256(enc.BytesPerSample()) == 2 * Half(enc)
    ensures TWO128 % Pow256(enc.BytesPerSample()) == 0
  {
    Pow256Values();
    match enc
    case I8 | U8s => assert enc.BytesPerSample() == 1;
    case I16 | U16s => assert enc.BytesPerSample() == 2;
    case I24 | U24s => assert enc.BytesPerSample() == 3;
    case I32 | U32s | F32 => assert enc.BytesPerSample() == 4;
    case I48 | U48s => assert enc.BytesPerSample() == 6;
    case I64 | U64s | F64 => assert enc.BytesPerSample() == 8;
  }

  /** Writing an integer and reading the low bytes keeps it modulo 2^bits. */
  lemma WrittenResidue(n: int, enc: PcmEncoding)
    requires -TWO128 <= n
    ensures FromLe(WriteInteger(AsU128(n), enc.BytesPerSample(), true)) == n % (2 * Half(enc))
  {
    var w := enc.BytesPerSample();
    ToLePrefix(AsU128(n), w, 16);
    FromToLe(AsU128(n), w);
    Widths(enc);
    AddMultiple(n, 2 * Half(enc));
  }

  lemma AddMultiple(n: int, m: int)
    requires 0 < m && TWO128 % m == 0
    ensures (n + TWO128) % m == n % m
  {
    var k := TWO128 / m;
    assert TWO128 == k * m;
    var q := n / m;
    assert n == q * m + n % m;
    assert (q + k) * m == q * m + k * m;
    ModUnique(n + TWO128, m, q + k, n % m);
  }

  lemma ModUnique(n: int, d: int, q: int, r: int)
    requires 0 < d && n == q * d + r && 0 <= r < d
    ensures n % d == r
  {
    var e := n / d - q;
    assert n == (n / d) * d + n % d;
    assert e * d == (n / d) * d - q * d;
    assert e * d == r - n % d;
    if e >= 1 {
      MulMonotone(1, e, d);
    } else if e <= -1 {
      MulMonotone(1, -e, d);
    }
  }

  // ------------------------------------------------- what the bytes preserve

  lemma EncodedRange(v: real, enc: PcmEncoding)
    requires -1.0 <= v <= 1.0 && !enc.IsFloat()
    ensures var n := EncodedInteger(v, enc);
            var lo := if enc.IsUnsigned() then 0 else -Half(enc);
            && lo <= n
            && (Overflows(v, enc) ==> n == lo + 2 * Half(enc))
            && (!Overflows(v, enc) ==> n < lo + 2 * Half(enc))
  {
    match enc
    case I64 =>
    case U64s =>
    case _ =>
  }

  lemma ResidueOf(n: int, m: int, lo: int)
    requires 0 < m && -m < lo <= 0 && lo <= n <= lo + m
    ensures n % m == if n < 0 then n + m else if n == m then 0 else n
  {
    ModUnique(n, m, if n < 0 then -1 else if n == m then 1 else 0,
              if n < 0 then n + m else if n == m then 0 else n);
  }

  lemma StoredBytes(value: real, enc: PcmEncoding, target: Target)
    requires !enc.IsFloat()
    ensures var b := SampleBytes(value, enc, Little, target);
            && FromLe(b) == EncodedInteger(ClampUnit(value), enc) % (2 * Half(enc))
            && Pow256(|b|) == 2 * Half(enc)
  {
    hide SampleBytes, WriteInteger, Quantized;
    var n := EncodedInteger(ClampUnit(value), enc);
    assert -TWO128 <= n by {
      EncodedRange(ClampUnit(value), enc);
    }
    IntegerBytes(value, enc, Little, target);
    WrittenResidue(n, enc);
    Widths(enc);
  }

  lemma IntegerBytes(value: real, enc: PcmEncoding, order: ByteOrder, target: Target)
    requires !enc.IsFloat()
    ensures SampleBytes(value, enc, order, target)
         == WriteInteger(IntegerAsU128(ClampUnit(value), enc), enc.BytesPerSample(), LittleFirst(order, target.host))
  {
    hide WriteInteger, IntegerAsU128, ClampUnit, LittleFirst;
  }

  /** The stored integer is the computed one, except for a 64-bit sample at full
      scale, whose bytes wrap to the lowest value. */
  lemma StoredValue(value: real, enc: PcmEncoding, target: Target)
    requires !enc.IsFloat()
    ensures !Overflows(value, enc) ==>
              Stored(value, enc, target)
              == EncodedInteger(ClampUnit(value), enc) - (if enc.IsUnsigned() then Half(enc) else 0)
    ensures Overflows(value, enc) ==> Stored(value, enc, target) == -Half(enc)
  {
    StoredBytes(value, enc, target);
    EncodedRange(ClampUnit(value), enc);
    ReadBack(EncodedInteger(ClampUnit(value), enc), SampleBytes(value, enc, Little, target), Half(enc),
             enc.IsUnsigned());
  }

  lemma ReadBack(n: int, b: seq<Byte>, half: int, unsigned: bool)
    requires 0 < half && Pow256(|b|) == 2 * half && FromLe(b) == n % (2 * half)
    requires var lo := if unsigned then 0 else -half; lo <= n <= lo + 2 * half
    ensures var lo := if unsigned then 0 else -half;
            DecodedWith(b, half, unsigned)
            == if n == lo + 2 * half then -half else n - (if unsigned then half else 0)
  {
    ResidueOf(n, 2 * half, if unsigned then 0 else -half);
  }

  lemma RoundNear(x: real, lo: int, hi: int)
    requires lo as real <= x <= hi as real
    ensures -0.5 <= Round(x) as real - x <= 0.5 && lo <= Round(x) <= hi
  {
  }

  lemma RoundMonotone(x: real, y: real)
    requires x <= y
    ensures Round(x) <= Round(y)
  {
  }

  /** A proper fraction of a scale stays below it. */
  lemma ScaleBounds(t: real, s: real, p: real)
    requires 0.0 <= t <= 1.0 && 0.0 <= s && p == t * s
    ensures 0.0 <= p <= s
  {
    ProductNonNegative(t, s);
    ProductNonNegative(1.0 - t, s);
    assert (1.0 - t) * s == s - p;
  }

  lemma ProductNonNegative(a: real, b: real)
    requires 0.0 <= a && 0.0 <= b
    ensures 0.0 <= a * b
  {
  }

  predicate Scales(half: int, scale: int, unsigned: bool) {
    1 <= half && (if unsigned then 2 * half - 1 <= scale <= 2 * half else half - 1 <= scale <= half)
  }

  lemma EncodingScales(enc: PcmEncoding)
    requires !enc.IsFloat()
    ensures Scales(Half(enc), Scale(enc), enc.IsUnsigned())
  {
  }

  lemma UnsignedError(v: real, h: real, s: real, x: real, y: real)
    requires -1.0 <= v <= 1.0 && 1.0 <= h && 2.0 * h - 1.0 <= s <= 2.0 * h
    requires x == Scaled(v, h, s, true) && y == v * h
    ensures 0.0 <= x <= s && -1.0 <= x - h - y <= 1.0
  {
    var t, gap := (v + 1.0) * 0.5, 2.0 * h - s;
    var g := gap * t;
    ScaleBounds(t, s, x);
    ScaleBounds(gap, t, g);
    assert h + y == x + g;
  }

  lemma SignedError(v: real, h: real, s: real, x: real, y: real)
    requires -1.0 <= v <= 1.0 && 1.0 <= h && h - 1.0 <= s <= h
    requires x == Scaled(v, h, s, false) && y == v * h
    ensures -h <= x <= s && -1.0 <= x - y <= 1.0
  {
    if v < 0.0 {
      ScaleBounds(-v, h, -x);
    } else {
      var gap := h - s;
      var g := gap * v;
      ScaleBounds(v, s, x);
      ScaleBounds(gap, v, g);
      assert y == x + g;
    }
  }

  /** An integer within one and a half steps of v on the scale of `half`. */
  predicate Near(n: int, v: real, half: int) {
    -1.5 <= n as real - v * half as real <= 1.5
  }

  lemma ScaledNear(v: real, h: real, s: real, unsigned: bool, x: real, y: real)
    requires -1.0 <= v <= 1.0 && 1.0 <= h && x == Scaled(v, h, s, unsigned) && y == v * h
    requires if unsigned then 2.0 * h - 1.0 <= s <= 2.0 * h else h - 1.0 <= s <= h
    ensures (if unsigned then 0.0 else -h) <= x <= s
    ensures -1.0 <= x - (if unsigned then h else 0.0) - y <= 1.0
  {
    if unsigned {
      UnsignedError(v, h, s, x, y);
    } else {
      SignedError(v, h, s, x, y);
    }
  }

  lemma RoundedNear(x: real, y: real, h: int, s: int, unsigned: bool)
    requires (if unsigned then 0.0 else -(h as real)) <= x <= s as real
    requires -1.0 <= x - (if unsigned then h as real else 0.0) - y <= 1.0
    ensures var n := ClampInt(Round(x), if unsigned then 0 else -h, s) - (if unsigned then h else 0);
            -1.5 <= n as real - y <= 1.5
  {
    var lo := if unsigned then 0 else -h;
    assert lo as real == if unsigned then 0.0 else -(h as real);
    RoundNear(x, lo, s);
  }

  lemma QuantizedError(v: real, h: int, s: int, unsigned: bool)
    requires -1.0 <= v <= 1.0 && Scales(h, s, unsigned)
    ensures Near(Quantized(v, h, s, unsigned) - (if unsigned then h else 0), v, h)
  {
    var x, y := Scaled(v, h as real, s as real, unsigned), v * h as real;
    ScaledNear(v, h as real, s as real, unsigned, x, y);
    RoundedNear(x, y, h, s, unsigned);
  }

  lemma IntegerError(v: real, enc: PcmEncoding)
    requires -1.0 <= v <= 1.0 && !enc.IsFloat()
    ensures Near(EncodedInteger(v, enc) - (if enc.IsUnsigned() then Half(enc) else 0), v, Half(enc))
  {
    EncodingScales(enc);
    QuantizedError(v, Half(enc), Scale(enc), enc.IsUnsigned());
  }

  /** Reading back loses at most one and a half steps, in either signedness, exactly
      for the samples that do not wrap. */
  lemma StoredError(value: real, enc: PcmEncoding, target: Target)
    requires !enc.IsFloat()
    ensures Near(Stored(value, enc, target), ClampUnit(value), Half(enc)) <==> !Overflows(value, enc)
  {
    hide Stored, EncodedInteger;
    StoredValue(value, enc, target);
    if Overflows(value, enc) {
      WrappedIsFar(ClampUnit(value), Half(enc));
    } else {
      IntegerError(ClampUnit(value), enc);
    }
  }

  /** The lowest value is nowhere near a sample at full scale. */
  lemma WrappedIsFar(v: real, h: int)
    requires 0.5 <= v && 2 <= h
    ensures !Near(-h, v, h)
  {
    ScaleMonotone(0.5, v, h as real);
  }

  lemma ScaleMonotone(x: real, y: real, s: real)
    requires x <= y && 0.0 <= s
    ensures x * s <= y * s
  {
    assert (y - x) * s >= 0.0;
  }

  lemma ScaledMonotone(v: real, w: real, h: real, s: real, unsigned: bool)
    requires v <= w && 0.0 <= h && 0.0 <= s
    ensures Scaled(v, h, s, unsigned) <= Scaled(w, h, s, unsigned)
  {
    if unsigned {
      ScaleMonotone((v + 1.0) * 0.5, (w + 1.0) * 0.5, s);
    } else if w < 0.0 {
      ScaleMonotone(v, w, h);
    } else if v < 0.0 {
      ScaleMonotone(v, 0.0, h);
      ScaleMonotone(0.0, w, s);
    } else {
      ScaleMonotone(v, w, s);
    }
  }

  lemma IntegerMonotone(v: real, w: real, enc: PcmEncoding)
    requires -1.0 <= v <= w <= 1.0 && !enc.IsFloat()
    ensures EncodedInteger(v, enc) <= EncodedInteger(w, enc)
  {
    EncodingScales(enc);
    ScaledMonotone(v, w, Half(enc) as real, Scale(enc) as real, enc.IsUnsigned());
    RoundMonotone(Scaled(v, Half(enc) as real, Scale(enc) as real, enc.IsUnsigned()),
                  Scaled(w, Half(enc) as real, Scale(enc) as real, enc.IsUnsigned()));
  }

  /** Encoding keeps order, unless the larger sample overflows. */
  lemma StoredMonotone(lower: real, upper: real, enc: PcmEncoding, target: Target)
    requires !enc.IsFloat() && lower <= upper
    ensures Stored(lower, enc, target) <= Stored(upper, enc, target)
            <==> !Overflows(upper, enc) || Stored(lower, enc, target) == -Half(enc)
  {
    StoredValue(lower, enc, target);
    StoredValue(upper, enc, target);
    EncodedRange(ClampUnit(lower), enc);
    IntegerMonotone(ClampUnit(lower), ClampUnit(upper), enc);
  }

  /** Whether louder never reads back as quieter. */
  ghost predicate KeepsOrder(enc: PcmEncoding, target: Target) {
    forall x: real, y: real | x <= y :: Stored(x, enc, target) <= Stored(y, enc, target)
  }

  /** Silence is encoded as zero, or as the midpoint when unsigned. */
  lemma SilenceIsMidpoint(enc: PcmEncoding)
    requires !enc.IsFloat()
    ensures EncodedInteger(0.0, enc) == if enc.IsUnsigned() then Half(enc) else 0
  {
    MidpointOf(Half(enc), Scale(enc), enc.IsUnsigned());
    EncodingScales(enc);
  }

  lemma MidpointOf(h: int, s: int, unsigned: bool)
    requires Scales(h, s, unsigned)
    ensures Quantized(0.0, h, s, unsigned) == if unsigned then h else 0
  {
    var x := Scaled(0.0, h as real, s as real, unsigned);
    if unsigned {
      assert x == 0.5 * s as real;
      assert (h - 1) as real < x + 0.5 - 0.5 + 0.6;
    }
  }

  /** The integer encodings that keep order are exactly those below 64 bits; at
      64 bits silence reads back above full scale. */
  lemma OrderKeptBelow64(enc: PcmEncoding, target: Target)
    requires !enc.IsFloat()
    ensures KeepsOrder(enc, target) <==> enc.Bits() < 64
    ensures enc.Bits() == 64 ==> Stored(1.0, enc, target) == -Half(enc) < Stored(0.0, enc, target)
  {
    if enc.Bits() == 64 {
      StoredValue(1.0, enc, target);
      StoredValue(0.0, enc, target);
      SilenceIsMidpoint(enc);
    } else {
      forall x: real, y: real | x <= y
        ensures Stored(x, enc, target) <= Stored(y, enc, target)
      {
        StoredMonotone(x, y, enc, target);
      }
    }
  }

  // ------------------------------------------------------ WAV decode, re-encode

  /** The per-sample decode of the WAV codec; a 24-bit sample is sign-extended
      with a fourth byte, exactly as the source does. */
  function WavSample(b: seq<Byte>, bitDepth: nat): real
    requires 8 * |b| == bitDepth
  {
    match bitDepth
    case 8 => SignedLe(b) as real / 128.0
    case 16 => SignedLe(b) as real / 32768.0
    case 24 => SignedLe(b + [if b[2] >= 0x80 then 0xff else 0]) as real / 8388608.0
    case 32 => SignedLe(b) as real / 2147483648.0
    case _ => 0.0
  }

  /** The last byte of a little-endian string is the most significant. */
  lemma {:induction false} AppendedByte(b: seq<Byte>, top: Byte)
    ensures FromLe(b + [top]) == FromLe(b) + Pow256(|b|) * top
  {
    if |b| == 0 {
      assert FromLe([top]) == top + 256 * FromLe([top][1..]);
    } else {
      AppendedByte(b[1..], top);
      assert (b + [top])[1..] == b[1..] + [top];
      assert Pow256(|b|) * top == 256 * (Pow256(|b| - 1) * top);
    }
  }

  lemma SignExtension(b: seq<Byte>)
    requires |b| == 3
    ensures SignedLe(b + [if b[2] >= 0x80 then 0xff else 0]) == SignedLe(b)
  {
    Pow256Values();
    var wide := b + [if b[2] >= 0x80 then 0xff else 0];
    AppendedByte(b, wide[3]);
    AppendedByte(b[..2], b[2]);
    assert b == b[..2] + [b[2]];
    ToFromLe(b[..2]);
  }

  lemma SignedRange(b: seq<Byte>, enc: PcmEncoding)
    requires |b| == enc.BytesPerSample()
    ensures -Half(enc) <= SignedLe(b) < Half(enc)
    ensures FromLe(b) == SignedLe(b) % (2 * Half(enc))
  {
    ToFromLe(b);
    Widths(enc);
    ResidueOf(SignedLe(b), 2 * Half(enc), -Half(enc));
  }

  predicate WavEncoding(enc: PcmEncoding) { enc.I8? || enc.I16? || enc.I24? }

  lemma WavValue(b: seq<Byte>, enc: PcmEncoding)
    requires WavEncoding(enc) && |b| == enc.BytesPerSample()
    ensures WavSample(b, enc.Bits()) == SignedLe(b) as real / Half(enc) as real
  {
    if enc.I24? {
      SignExtension(b);
    }
  }

  lemma RoundDown(s: int, t: real)
    requires 0 <= s && 0.0 <= t <= 1.0 && (t == 0.0 || 1 <= s)
    ensures Round(s as real - t) == if t <= 0.5 then s else s - 1
  {
    if t <= 0.5 {
      assert (s as real - t + 0.5).Floor == s;
    }
  }

  /** Scaling a quotient by one less than its divisor takes the quotient off. */
  lemma ScaledQuotient(s: real, h: real, t: real)
    requires 1.0 <= h && t * h == s
    ensures Scaled(t, h, h - 1.0, false) == if t < 0.0 then s else s - t
    ensures t < 0.0 <==> s < 0.0
    ensures t <= 0.0 <==> s <= 0.0
    ensures s < h ==> t < 1.0
    ensures t <= 0.5 <==> s <= 0.5 * h
  {
    QuotientSide(s, h, t, 0.0, 0.0);
    QuotientSide(s, h, t, 0.5, 0.5 * h);
    QuotientSide(s, h, t, 1.0, h);
    assert t * (h - 1.0) == t * h - t;
  }

  /** A quotient is on the same side of k as the dividend is of k times h. */
  lemma QuotientSide(s: real, h: real, t: real, k: real, kh: real)
    requires 0.0 < h && t * h == s && kh == k * h
    ensures t <= k <==> s <= kh
    ensures t < k <==> s < kh
  {
    if t < k {
      StrictScale(t, k, h);
    } else if k < t {
      StrictScale(k, t, h);
    }
  }

  lemma StrictScale(x: real, y: real, h: real)
    requires x < y && 0.0 < h
    ensures x * h < y * h
  {
    assert (y - x) * h > 0.0;
  }

  /** A decoded integer s comes back as s up to half of full scale and one lower
      above it, because positive values are scaled by 2^(b-1) - 1. */
  lemma Requantized(s: int, half: int, t: real)
    requires 1 <= half && -half <= s < half && t * half as real == s as real
    ensures Quantized(t, half, half - 1, false) == if 2 * s <= half then s else s - 1
  {
    var sr, hr := s as real, half as real;
    ScaledQuotient(sr, hr, t);
    assert (half - 1) as real == hr - 1.0;
    if s >= 0 {
      assert 2 * s <= half <==> sr <= 0.5 * hr;
      RoundDown(s, t);
    } else {
      assert Round(sr) == s;
    }
  }

  lemma RequantizedSample(s: int, enc: PcmEncoding)
    requires WavEncoding(enc) && -Half(enc) <= s < Half(enc)
    ensures -1.0 <= s as real / Half(enc) as real <= 1.0
    ensures EncodedInteger(s as real / Half(enc) as real, enc) == if 2 * s <= Half(enc) then s else s - 1
  {
    Requantized(s, Half(enc), s as real / Half(enc) as real);
  }

  /** Main theorem of the sample codec. Re-encoding what the WAV decoder made of
      little-endian bytes gives those bytes back up to half of full scale, all
      negative samples included, and the bytes of the next lower integer above
      it. */
  lemma WavRoundTrip(b: seq<Byte>, enc: PcmEncoding, target: Target)
    requires WavEncoding(enc) && |b| == enc.BytesPerSample()
    ensures var s := SignedLe(b);
            var again := SampleBytes(WavSample(b, enc.Bits()), enc, Little, target);
            && SignedLe(again) == (if 2 * s <= Half(enc) then s else s - 1)
            && (again == b <==> 2 * s <= Half(enc))
  {
    var s := SignedLe(b);
    var v := WavSample(b, enc.Bits());
    var again := SampleBytes(v, enc, Little, target);
    SignedRange(b, enc);
    WavValue(b, enc);
    RequantizedSample(s, enc);
    StoredValue(v, enc, target);
    SignedRange(again, enc);
    ToFromLe(b);
    ToFromLe(again);
  }
}

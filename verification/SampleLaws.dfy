/** The bytes of a sample, one by one: crates/around-engine/src/filter_chain.rs:586-629. */
module SampleLaws {
  import opened Arith
  import opened Pcm
  import opened Bytes
  import opened SampleCodec

  /** Byte k of a little-endian string is the k-th digit in base 256. */
  lemma {:induction false} DigitOf(n: nat, w: nat, k: nat)
    requires k < w
    ensures ToLe(n, w)[k] == n / Pow256(k) % 256
    decreases w
  {
    if k > 0 {
      DigitOf(n / 256, w - 1, k - 1);
      assert n / 256 / Pow256(k - 1) == n / (256 * Pow256(k - 1)) by {
        DivTwice(n, Pow256(k - 1));
      }
    }
  }

  lemma DivTwice(v: nat, b: nat)
    requires 0 < b
    ensures v / 256 / b == v / (256 * b)
  {
    var q, r := v / 256 / b, v / 256 % b;
    assert v / 256 == q * b + r;
    assert q * (256 * b) == 256 * (q * b);
    DivModUnique(v, 256 * b, q, 256 * r + v % 256);
  }

  /** A little-endian integer sample holds the digits of its integer modulo 2^bits. */
  lemma SampleDigit(value: real, enc: PcmEncoding, target: Target, k: nat)
    requires !enc.IsFloat() && k < enc.BytesPerSample()
    ensures var n := EncodedInteger(ClampUnit(value), enc) % (2 * Half(enc));
            0 <= n && SampleBytes(value, enc, Little, target)[k] == n / Pow256(k) % 256
  {
    var b := SampleBytes(value, enc, Little, target);
    StoredBytes(value, enc, target);
    ToFromLe(b);
    hide SampleBytes, ToLe, FromLe;
    DigitOf(FromLe(b), |b|, k);
  }

  /** The big-endian sample is the little-endian one reversed, and the native one is
      whichever the build is. */
  lemma Orders(value: real, enc: PcmEncoding, target: Target)
    ensures SampleBytes(value, enc, Big, target) == Reverse(SampleBytes(value, enc, Little, target))
    ensures SampleBytes(value, enc, Native, target)
         == SampleBytes(value, enc, if target.host == LittleHost then Little else Big, target)
  {
    hide ToLe, IntegerAsU128, ClampUnit;
    var v := ClampUnit(value);
    ReverseTwice(target.floats.f32(v));
    ReverseTwice(target.floats.f64(v));
  }

  /** A float sample is the bytes of the clamped value, least significant first. */
  lemma FloatSample(value: real, target: Target)
    ensures SampleBytes(value, F32, Little, target) == target.floats.f32(ClampUnit(value))
    ensures SampleBytes(value, F64, Little, target) == target.floats.f64(ClampUnit(value))
    ensures -1.0 <= value <= 1.0 ==> ClampUnit(value) == value
    ensures value > 1.0 ==> ClampUnit(value) == 1.0
    ensures value < -1.0 ==> ClampUnit(value) == -1.0
  {
    ReverseTwice(target.floats.f32(ClampUnit(value)));
    ReverseTwice(target.floats.f64(ClampUnit(value)));
  }

  /** Rounding is to the nearest integer, halves away from zero. */
  lemma RoundHalves(x: real, n: int)
    ensures n as real - 0.5 < x < n as real + 0.5 ==> Round(x) == n
    ensures n >= 0 && x == n as real + 0.5 ==> Round(x) == n + 1
    ensures n <= 0 && x == n as real - 0.5 ==> Round(x) == n - 1
  {
  }

  /** Both ends of the scale, below 64 bits: the lowest and the highest integer. */
  lemma FullScale(enc: PcmEncoding)
    requires !enc.IsFloat() && enc.Bits() < 64
    ensures EncodedInteger(-1.0, enc) == if enc.IsUnsigned() then 0 else -Half(enc)
    ensures EncodedInteger(1.0, enc) == if enc.IsUnsigned() then 2 * Half(enc) - 1 else Half(enc) - 1
  {
  }

  /** A WAV sample is its two's-complement integer over the half range of its depth, 32
      bits included, and zero for a depth that is not read. */
  lemma WavValues(b: seq<Byte>)
    ensures |b| == 1 ==> WavSample(b, 8) * 128.0 == SignedLe(b) as real
    ensures |b| == 2 ==> WavSample(b, 16) * 32768.0 == SignedLe(b) as real
    ensures |b| == 3 ==> WavSample(b, 24) * 8388608.0 == SignedLe(b) as real
    ensures |b| == 4 ==> WavSample(b, 32) * 2147483648.0 == SignedLe(b) as real
    ensures |b| !in {1, 2, 3, 4} ==> WavSample(b, 8 * |b|) == 0.0
  {
    if |b| == 3 {
      SignExtension(b);
    }
    hide SignedLe;
  }

  lemma WavExamples()
    ensures WavSample([0x00, 0x80], 16) == -1.0 && WavSample([0x00, 0x40], 16) == 0.5
    ensures WavSample([0xFF], 8) == -1.0 / 128.0 && WavSample([0x00, 0x00, 0xC0], 24) == -0.5
  {
    Pow256Values();
    assert FromLe([0x80]) == 0x80 + 256 * FromLe([]);
    assert [0x00, 0x80][1..] == [0x80] && [0x00, 0x40][1..] == [0x40];
    assert [0x80][1..] == [] && [0x40][1..] == [] && [0xFF][1..] == [];
    SignExtension([0x00, 0x00, 0xC0]);
    assert [0x00, 0x00, 0xC0][1..] == [0x00, 0xC0] && [0x00, 0xC0][1..] == [0xC0] && [0xC0][1..] == [];
  }

  lemma Ends(enc: PcmEncoding, half: int)
    requires !enc.IsFloat() && enc.Bits() < 64 && half == Half(enc)
    ensures EncodedInteger(ClampUnit(-1.0), enc) == if enc.IsUnsigned() then 0 else -half
    ensures EncodedInteger(ClampUnit(1.0), enc) == if enc.IsUnsigned() then 2 * half - 1 else half - 1
    ensures EncodedInteger(ClampUnit(2.0), enc) == if enc.IsUnsigned() then 2 * half - 1 else half - 1
  {
    FullScale(enc);
    hide EncodedInteger;
  }

  lemma SixteenDigits(n: int, low: Byte, high: Byte)
    requires n == 256 * high + low || n == 256 * high + low - 65536
    ensures n % 65536 / 1 % 256 == low && n % 65536 / 256 % 256 == high
  {
    assert n % 65536 == 256 * high + low;
  }

  lemma Sixteen(value: real, n: int, low: Byte, high: Byte, target: Target)
    requires EncodedInteger(ClampUnit(value), I16) == n && (n == 256 * high + low || n == 256 * high + low - 65536)
    ensures SampleBytes(value, I16, Little, target) == [low, high]
  {
    Pow256Values();
    assert Half(I16) == 32768 && Pow256(0) == 1;
    SampleDigit(value, I16, target, 0);
    SampleDigit(value, I16, target, 1);
    SixteenDigits(n, low, high);
    hide *;
    assert |SampleBytes(value, I16, Little, target)| == 2;
  }

  lemma TwentyFour(value: real, n: int, target: Target)
    requires EncodedInteger(ClampUnit(value), I24) == n
    ensures SampleBytes(value, I24, Little, target)
         == [n % 16777216 % 256, n % 16777216 / 256 % 256, n % 16777216 / 65536]
  {
    hide SampleBytes, EncodedInteger, ClampUnit;
    Pow256Values();
    SampleDigit(value, I24, target, 0);
    SampleDigit(value, I24, target, 1);
    SampleDigit(value, I24, target, 2);
  }

  lemma Eight(value: real, n: int, target: Target)
    requires EncodedInteger(ClampUnit(value), U8s) == n
    ensures SampleBytes(value, U8s, Little, target) == [n % 256]
  {
    hide SampleBytes, EncodedInteger, ClampUnit;
    Pow256Values();
    SampleDigit(value, U8s, target, 0);
  }

  /** Samples in bytes: both ends of 16 bits, ... */
  lemma SixteenBitTop(target: Target)
    ensures SampleBytes(1.0, I16, Little, target) == [0xFF, 0x7F]
  {
    Ends(I16, 32768);
    hide *;
    Sixteen(1.0, 32767, 0xFF, 0x7F, target);
  }

  lemma SixteenBitBottom(target: Target)
    ensures SampleBytes(-1.0, I16, Little, target) == [0x00, 0x80]
  {
    Ends(I16, 32768);
    hide *;
    Sixteen(-1.0, -32768, 0x00, 0x80, target);
  }

  /** ... in the other order, ... */
  lemma SixteenBitBig(target: Target)
    ensures SampleBytes(-1.0, I16, Big, target) == [0x80, 0x00]
  {
    SixteenBitBottom(target);
    Orders(-1.0, I16, target);
    hide *;
    Swapped(SampleBytes(-1.0, I16, Little, target), 0x00, 0x80);
  }

  lemma Swapped(b: seq<Byte>, x: Byte, y: Byte)
    requires b == [x, y]
    ensures Reverse(b) == [y, x]
  {
  }

  /** ... unsigned ones, too loud ones, ... */
  lemma EightBitEnds(target: Target)
    ensures SampleBytes(-1.0, U8s, Little, target) == [0x00]
    ensures SampleBytes(2.0, U8s, Little, target) == SampleBytes(1.0, U8s, Little, target) == [0xFF]
  {
    Ends(U8s, 128);
    hide *;
    Eight(-1.0, 0, target);
    Eight(1.0, 255, target);
    Eight(2.0, 255, target);
  }

  /** ... and half of full scale in 24 bits. */
  lemma HalfScale(target: Target)
    ensures SampleBytes(0.5, I24, Little, target) == [0x00, 0x00, 0x40]
  {
    RoundHalves(4194303.5, 4194303);
    assert EncodedInteger(0.5, I24) == 0x40_0000;
    assert ClampUnit(0.5) == 0.5;
    hide *;
    TwentyFour(0.5, 0x40_0000, target);
  }
}

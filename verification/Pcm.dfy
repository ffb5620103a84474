/** PCM formats: crates/around-core/src/types.rs. */
module Pcm {
  import opened Arith

  type U8 = x: nat | x < 0x100
  type U16 = x: nat | x < 0x1_0000
  type U32 = x: nat | x < 0x1_0000_0000
  type U64 = x: nat | x < 0x1_0000_0000_0000_0000

  /** Byte size type on the 64-bit targets the engine builds for. */
  const USIZE_MAX: nat := 0xFFFF_FFFF_FFFF_FFFF

  type Byte = U8

  datatype Result<+T, +E> = Ok(value: T) | Err(error: E)

  datatype Option<+T> = None | Some(value: T)

  datatype Interleave = Interleaved | Planar

  datatype ByteOrder = Native | Little | Big

  /** The build target's endianness, which the source reads with cfg!. */
  datatype Host = LittleHost | BigHost

  datatype PcmEncoding = I8 | I16 | I24 | I32 | I48 | I64 | U8s | U16s | U24s | U32s | U48s | U64s | F32 | F64
  {
    function Bits(): (b: U16)
      ensures b % 8 == 0 && 8 <= b <= 64
    {
      match this
      case I8 | U8s => 8
      case I16 | U16s => 16
      case I24 | U24s => 24
      case I32 | U32s | F32 => 32
      case I48 | U48s => 48
      case I64 | U64s | F64 => 64
    }

    function BytesPerSample(): (w: nat)
      ensures 1 <= w <= 8 && 8 * w == Bits()
    {
      CeilDiv(Bits(), 8)
    }

    predicate IsFloat() { F32? || F64? }

    predicate IsSigned() { I8? || I16? || I24? || I32? || I48? || I64? }

    predicate IsUnsigned() { U8s? || U16s? || U24s? || U32s? || U48s? || U64s? }
  }

  predicate IsNative(order: ByteOrder, host: Host) {
    order == Native || (host == LittleHost && order == Little) || (host == BigHost && order == Big)
  }

  /** Whether bytes in this order are least significant first. */
  predicate LittleFirst(order: ByteOrder, host: Host) {
    match order
    case Little => true
    case Big => false
    case Native => host == LittleHost
  }

  datatype SpecError = ZeroRate | BadChannels

  datatype SampleSpec = SampleSpec(
    sampleRate: U32, channels: U8, encoding: PcmEncoding, interleave: Interleave, byteOrder: ByteOrder)
  {
    function Validate(): Result<(), SpecError> {
      if sampleRate == 0 then Err(ZeroRate)
      else if channels == 0 || channels > 32 then Err(BadChannels)
      else Ok(())
    }

    predicate Valid() { 0 < sampleRate && 1 <= channels <= 32 }

    function BytesPerSample(): nat { encoding.BytesPerSample() }

    function BytesPerFrame(): nat { BytesPerSample() * channels }
  }

  /** The validating constructor. */
  function NewSpec(rate: U32, channels: U8, encoding: PcmEncoding, interleave: Interleave, order: ByteOrder)
    : (r: Result<SampleSpec, SpecError>)
    ensures r.Ok? <==> 0 < rate && 1 <= channels <= 32
    ensures r.Ok? ==> r.value == SampleSpec(rate, channels, encoding, interleave, order) && r.value.Valid()
  {
    var spec := SampleSpec(rate, channels, encoding, interleave, order);
    match spec.Validate()
    case Ok(_) => Ok(spec)
    case Err(e) => Err(e)
  }

  lemma FrameBytesPositive(spec: SampleSpec)
    requires spec.Valid()
    ensures 0 < spec.BytesPerFrame()
  {
    MulMonotone(1, spec.channels, spec.BytesPerSample());
  }
}

/** Length-prefixed message framing: crates/around-engine/src/ipc/codec_proto.rs.
    The prefix is the base 128 varint of Protocol Buffers Encoding, section
    "Base 128 Varints". */
module VarintFraming {
  import opened Arith
  import opened Pcm

  const TWO64: nat := 0x1_0000_0000_0000_0000
  const MAX_VARINT: nat := 10
  const MAX_MESSAGE: nat := 64 * 1024 * 1024

  function Pow128(n: nat): (p: nat)
    ensures 0 < p
  {
    if n == 0 then 1 else 128 * Pow128(n - 1)
  }

  /** Seven bits a byte, least significant first, the top bit on all but the
      last byte. */
  function Varint(v: nat): (b: seq<Byte>)
    ensures 0 < |b|
  {
    if v < 128 then [v] else [v % 128 + 128] + Varint(v / 128)
  }

  /** The number in the low seven bits of each byte. */
  function Payload(b: seq<Byte>): nat {
    if |b| == 0 then 0 else b[0] % 128 + 128 * Payload(b[1..])
  }

  /** Index of the first byte without the top bit, or the length. */
  function Terminator(b: seq<Byte>): (n: nat)
    ensures n <= |b|
    ensures forall i | 0 <= i < n :: b[i] >= 128
    ensures n < |b| ==> b[n] < 128
  {
    if |b| == 0 || b[0] < 128 then 0 else 1 + Terminator(b[1..])
  }

  /** decode_varint: a terminator within ten bytes, the value modulo 2^64. */
  function Decode(b: seq<Byte>): Option<(nat, nat)> {
    var n := Terminator(b);
    if n < |b| && n < MAX_VARINT then Some((Payload(b[..n + 1]) % TWO64, n + 1)) else None
  }

  // ------------------------------------------------------------- the varint

  lemma {:induction false} VarintPayload(v: nat, rest: seq<Byte>)
    ensures Payload(Varint(v)) == v
    ensures Terminator(Varint(v) + rest) == |Varint(v)| - 1
  {
    if v >= 128 {
      VarintPayload(v / 128, rest);
      assert Varint(v)[1..] == Varint(v / 128);
      assert (Varint(v) + rest)[1..] == Varint(v / 128) + rest;
    }
  }

  /** The length is exact: k bytes hold precisely the values below 128^k that do
      not fit k - 1. */
  lemma {:induction false} VarintLength(v: nat, k: nat)
    requires 0 < k
    ensures |Varint(v)| <= k <==> v < Pow128(k)
  {
    if k == 1 {
      assert Pow128(1) == 128 * Pow128(0);
    } else if v >= 128 {
      VarintLength(v / 128, k - 1);
      assert v == v / 128 * 128 + v % 128;
      if v / 128 < Pow128(k - 1) {
        MulMonotone(v / 128 + 1, Pow128(k - 1), 128);
      } else {
        MulMonotone(Pow128(k - 1), v / 128, 128);
      }
    } else {
      PowAtLeast(k);
    }
  }

  lemma {:induction false} PowAtLeast(k: nat)
    requires 0 < k
    ensures Pow128(k) >= 128
  {
    if k > 1 {
      PowAtLeast(k - 1);
    }
  }

  lemma Pow128Values()
    ensures Pow128(9) == TWO64 / 2 && Pow128(10) >= TWO64
  {
    assert Pow128(1) == 128;
    assert Pow128(2) == 128 * Pow128(1);
    assert Pow128(3) == 128 * Pow128(2);
    assert Pow128(4) == 128 * Pow128(3);
    assert Pow128(5) == 128 * Pow128(4);
    assert Pow128(6) == 128 * Pow128(5);
    assert Pow128(7) == 128 * Pow128(6);
    assert Pow128(8) == 128 * Pow128(7);
    assert Pow128(9) == 128 * Pow128(8);
    assert Pow128(10) == 128 * Pow128(9);
  }

  lemma {:induction false} PayloadBound(b: seq<Byte>)
    ensures Payload(b) < Pow128(|b|)
  {
    if |b| > 0 {
      PayloadBound(b[1..]);
    }
  }

  /** Decoding inverts encoding whatever follows, and consumes exactly the
      encoding's one to ten bytes. */
  lemma VarintRoundTrip(v: nat, rest: seq<Byte>)
    requires v < TWO64
    ensures Decode(Varint(v) + rest) == Some((v, |Varint(v)|))
    ensures 1 <= |Varint(v)| <= MAX_VARINT
  {
    hide Varint, Payload, Pow128;
    VarintPayload(v, rest);
    assert |Varint(v)| <= MAX_VARINT by {
      Pow128Values();
      VarintLength(v, MAX_VARINT);
    }
    var b := Varint(v) + rest;
    assert b[..|Varint(v)|] == Varint(v);
    assert v % TWO64 == v;
  }

  /** No byte string that decodes to v is shorter than its encoding. */
  lemma VarintIsShortest(b: seq<Byte>)
    requires Decode(b).Some?
    ensures var (v, n) := Decode(b).value; v < TWO64 && |Varint(v)| <= n
  {
    var (v, n) := Decode(b).value;
    Pow128Values();
    PayloadBound(b[..n]);
    if n < MAX_VARINT {
      PowMonotone(n, 9);
      VarintLength(v, n);
    } else {
      VarintLength(v, MAX_VARINT);
    }
  }

  lemma {:induction false} PowMonotone(a: nat, b: nat)
    requires a <= b
    ensures Pow128(a) <= Pow128(b)
    decreases b
  {
    if a < b {
      PowMonotone(a, b - 1);
    }
  }

  /** encode_varint, appending to the caller's buffer. */
  method EncodeVarint(value: U64, buf: seq<Byte>) returns (out: seq<Byte>)
    ensures out == buf + Varint(value)
  {
    out := buf;
    var rest: nat := value;
    while true
      invariant out + Varint(rest) == buf + Varint(value)
      decreases rest
    {
      var byte: nat := rest % 128;
      var last := rest < 128;
      ghost var before := out;
      if rest / 128 != 0 {
        byte := byte + 128;
      }
      out := out + [byte];
      if last {
        assert before + [byte] == before + Varint(rest);
        return;
      }
      assert before + Varint(rest) == (before + [byte]) + Varint(rest / 128);
      rest := rest / 128;
    }
  }

  lemma {:induction false} PayloadAppend(b: seq<Byte>, last: Byte)
    ensures Payload(b + [last]) == Payload(b) + Pow128(|b|) * (last % 128)
  {
    if |b| == 0 {
      assert Payload([last]) == last % 128 + 128 * Payload([last][1..]);
    } else {
      PayloadAppend(b[1..], last);
      assert (b + [last])[1..] == b[1..] + [last];
      assert Pow128(|b|) * (last % 128) == 128 * (Pow128(|b| - 1) * (last % 128));
    }
  }

  /** decode_varint. The bits shifted in are disjoint from those already there,
      so the source's `|=` is an addition; a tenth byte keeps only its low bit. */
  method DecodeVarint(buf: seq<Byte>) returns (r: Option<(nat, nat)>)
    ensures r == Decode(buf)
  {
    hide Terminator, Payload, Pow128, Varint;
    var value, weight := 0, 1;
    var i := 0;
    PayloadEmpty();
    while i < |buf|
      invariant 0 <= i <= |buf| && i < MAX_VARINT
      invariant forall k | 0 <= k < i :: buf[k] >= 128
      invariant weight == Pow128(i) && value == Payload(buf[..i]) && value < weight
      decreases |buf| - i
    {
      var byte := buf[i];
      PayloadAppend(buf[..i], byte);
      assert buf[..i + 1] == buf[..i] + [byte];
      TruncatedTerm(Payload(buf[..i]), byte % 128, weight, i);
      value := value + (byte % 128 * weight) % TWO64;
      if byte < 128 {
        TerminatorIs(buf, i);
        return Some((value, i + 1));
      }
      if i + 1 >= MAX_VARINT {
        TerminatorBeyond(buf, i + 1);
        return None;
      }
      PayloadBound(buf[..i + 1]);
      PowStep(i);
      i, weight := i + 1, weight * 128;
    }
    TerminatorBeyond(buf, |buf|);
    return None;
  }

  lemma PayloadEmpty()
    ensures Payload([]) == 0 && Pow128(0) == 1
  {
  }

  lemma PowStep(i: nat)
    ensures Pow128(i + 1) == Pow128(i) * 128
  {
  }

  /** Shifting a byte in and dropping the bits above 64 is adding it modulo 2^64;
      below the tenth byte nothing is dropped. */
  lemma TruncatedTerm(value: nat, digit: nat, weight: nat, i: nat)
    requires i < MAX_VARINT && weight == Pow128(i) && value < weight && digit < 128
    ensures value + (digit * weight) % TWO64 == (value + weight * digit) % TWO64
    ensures i < 9 ==> value + (digit * weight) % TWO64 == value + weight * digit
  {
    Pow128Values();
    if i < 9 {
      PowMonotone(i + 1, 9);
      SmallTerm(value, digit, weight);
    } else {
      TenthTerm(value, digit);
    }
  }

  lemma SmallTerm(value: nat, digit: nat, weight: nat)
    requires value < weight && digit < 128 && 128 * weight <= TWO64
    ensures digit * weight < TWO64 && value + digit * weight < TWO64
  {
    MulMonotone(digit, 127, weight);
  }

  lemma TenthTerm(value: nat, digit: nat)
    requires value < TWO64 / 2 && digit < 128
    ensures value + (digit * (TWO64 / 2)) % TWO64 == (value + TWO64 / 2 * digit) % TWO64
  {
    HalfTerm(value, digit, TWO64 / 2);
  }

  lemma HalfTerm(value: nat, digit: nat, half: nat)
    requires value < half
    ensures value + (digit * half) % (2 * half) == (value + half * digit) % (2 * half)
  {
    var q, r := digit / 2, digit % 2;
    assert digit * half == q * (2 * half) + r * half;
    DivModUnique(digit * half, 2 * half, q, r * half);
    DivModUnique(value + half * digit, 2 * half, q, value + r * half);
  }

  lemma {:induction false} TerminatorIs(b: seq<Byte>, n: nat)
    requires n < |b| && b[n] < 128 && forall k | 0 <= k < n :: b[k] >= 128
    ensures Terminator(b) == n
  {
    var t := Terminator(b);
    assert t < |b| ==> b[t] < 128;
  }

  lemma TerminatorBeyond(b: seq<Byte>, n: nat)
    requires n <= |b| && forall k | 0 <= k < n :: b[k] >= 128
    ensures n <= Terminator(b)
  {
    var t := Terminator(b);
    assert t < |b| ==> b[t] < 128;
  }

  // ---------------------------------------------------------------- framing

  datatype FrameError = VarintTooLong | UnexpectedEof | MessageTooLarge

  /** write_response's framing: length prefix, then the message. */
  function Frame(message: seq<Byte>): (f: seq<Byte>)
    ensures |f| > |message|
  {
    Varint(|message|) + message
  }

  /** What the reader makes of the bytes ahead of it, and how many it takes. */
  function ReadFrame(s: seq<Byte>): (r: (Result<seq<Byte>, FrameError>, nat))
    ensures r.1 <= |s|
  {
    var n := Terminator(s);
    if n >= MAX_VARINT then (Err(VarintTooLong), MAX_VARINT)
    else if n == |s| then (Err(UnexpectedEof), |s|)
    else
      var length := Payload(s[..n + 1]) % TWO64;
      if length > MAX_MESSAGE then (Err(MessageTooLarge), n + 1)
      else if |s| - (n + 1) < length then (Err(UnexpectedEof), |s|)
      else (Ok(s[n + 1..n + 1 + length]), n + 1 + length)
  }

  /** A byte stream with a read position; reads past the end fail. */
  class Reader {
    const bytes: seq<Byte>
    var pos: nat

    ghost predicate Valid()
      reads this
    {
      pos <= |bytes|
    }

    constructor (bytes: seq<Byte>)
      ensures Valid() && pos == 0 && this.bytes == bytes
    {
      this.bytes := bytes;
      pos := 0;
    }

    /** read_exact: all n bytes or an end-of-file error that drains the stream. */
    method ReadExact(n: nat) returns (r: Result<seq<Byte>, FrameError>)
      requires Valid()
      modifies this
      ensures Valid()
      ensures if old(pos) + n <= |bytes| then r == Ok(bytes[old(pos)..old(pos) + n]) && pos == old(pos) + n
              else r == Err(UnexpectedEof) && pos == |bytes|
    {
      if pos + n <= |bytes| {
        r := Ok(bytes[pos..pos + n]);
        pos := pos + n;
      } else {
        r := Err(UnexpectedEof);
        pos := |bytes|;
      }
    }

    /** The loop of read_command: the prefix is read byte by byte. */
    method ReadPrefix() returns (r: Result<seq<Byte>, FrameError>)
      requires Valid()
      modifies this
      ensures Valid()
      ensures var s := old(bytes[pos..]);
              var n := Terminator(s);
              if n >= MAX_VARINT then r == Err(VarintTooLong) && pos == old(pos) + MAX_VARINT
              else if n == |s| then r == Err(UnexpectedEof) && pos == |bytes|
              else r == Ok(s[..n + 1]) && pos == old(pos) + n + 1
    {
      hide Terminator;
      ghost var s, start := bytes[pos..], pos;
      var prefix: seq<Byte> := [];
      while true
        invariant Valid() && |prefix| <= MAX_VARINT && pos == start + |prefix|
        invariant prefix == s[..|prefix|] && forall k | 0 <= k < |prefix| :: s[k] >= 128
        decreases MAX_VARINT - |prefix|
      {
        if |prefix| >= MAX_VARINT {
          TerminatorBeyond(s, MAX_VARINT);
          return Err(VarintTooLong);
        }
        var byte := ReadExact(1);
        if byte.Err? {
          TerminatorBeyond(s, |s|);
          return Err(byte.error);
        }
        prefix := prefix + byte.value;
        if byte.value[0] < 128 {
          assert prefix == s[..|prefix|];
          TerminatorIs(s, |prefix| - 1);
          return Ok(prefix);
        }
      }
    }

    /** read_command up to the message bytes. */
    method ReadMessage() returns (r: Result<seq<Byte>, FrameError>)
      requires Valid()
      modifies this
      ensures Valid()
      ensures (r, pos - old(pos)) == ReadFrame(old(bytes[pos..]))
    {
      hide Payload, Terminator;
      ghost var s := bytes[pos..];
      var prefix := ReadPrefix();
      if prefix.Err? {
        return Err(prefix.error);
      }
      assert forall k | 0 <= k < |prefix.value| :: prefix.value[k] == s[k];
      TerminatorIs(prefix.value, |prefix.value| - 1);
      assert prefix.value[..|prefix.value|] == prefix.value;
      var decoded := DecodeVarint(prefix.value);
      var length := decoded.value.0;
      if length > MAX_MESSAGE {
        return Err(MessageTooLarge);
      }
      ghost var at := pos;
      r := ReadExact(length);
      assert at + length <= |bytes| ==> bytes[at..at + length] == s[|prefix.value|..|prefix.value| + length];
    }
  }

  /** Reading a written frame gives the message back and leaves what follows,
      exactly for messages up to 64 MiB; a longer one is written but refused. */
  lemma FrameRoundTrip(message: seq<Byte>, rest: seq<Byte>)
    requires |message| < TWO64
    ensures ReadFrame(Frame(message) + rest) ==
              if |message| <= MAX_MESSAGE then (Ok(message), |Frame(message)|)
              else (Err(MessageTooLarge), |Varint(|message|)|)
  {
    hide Payload, Terminator, Varint, Pow128;
    var prefix, s := Varint(|message|), Frame(message) + rest;
    assert s == prefix + (message + rest);
    VarintPayload(|message|, message + rest);
    VarintRoundTrip(|message|, message + rest);
    assert s[..|prefix|] == prefix;
    assert s[|prefix|..|prefix| + |message|] == message;
  }

  /** A frame cut anywhere is no frame: the reader runs out of bytes, at its end. */
  lemma CutFrame(message: seq<Byte>, n: nat)
    requires |message| <= MAX_MESSAGE && n < |Frame(message)|
    ensures ReadFrame(Frame(message)[..n]) == (Err(UnexpectedEof), n)
  {
    hide Payload, Varint, Pow128, Terminator;
    var prefix, s := Varint(|message|), Frame(message)[..n];
    VarintPayload(|message|, []);
    VarintRoundTrip(|message|, []);
    assert prefix + [] == prefix;
    if n < |prefix| {
      assert s == prefix[..n];
      AllContinue(s);
    } else {
      assert forall k | 0 <= k < |prefix| :: s[k] == prefix[k];
      TerminatorIs(s, |prefix| - 1);
      assert s[..|prefix|] == prefix;
    }
  }

  lemma AllContinue(b: seq<Byte>)
    requires forall k | 0 <= k < |b| :: b[k] >= 128
    ensures Terminator(b) == |b|
  {
    TerminatorBeyond(b, |b|);
  }

  /** Ten bytes are the most a varint has. */
  lemma NoEleventhByte(b: seq<Byte>)
    requires 10 <= |b| && forall k | 0 <= k < 10 :: b[k] >= 128
    ensures Decode(b) == None
  {
    TerminatorBeyond(b, 10);
  }

  /** Ten bytes that all announce another one are refused, and no more are taken. */
  lemma EndlessPrefix(s: seq<Byte>)
    requires 10 <= |s| && forall k | 0 <= k < 10 :: s[k] >= 128
    ensures ReadFrame(s) == (Err(VarintTooLong), 10)
  {
    TerminatorBeyond(s, 10);
  }

  function Frames(messages: seq<seq<Byte>>): seq<Byte> {
    if |messages| == 0 then [] else Frame(messages[0]) + Frames(messages[1..])
  }

  /** `count` successive reads, and the bytes left over; the first error ends it. */
  function ReadFrames(s: seq<Byte>, count: nat): (seq<Result<seq<Byte>, FrameError>>, seq<Byte>)
  {
    if count == 0 then ([], s)
    else
      var (r, taken) := ReadFrame(s);
      if r.Err? then ([r], s[taken..])
      else
        var (more, left) := ReadFrames(s[taken..], count - 1);
        ([r] + more, left)
  }

  function Delivered(messages: seq<seq<Byte>>): seq<Result<seq<Byte>, FrameError>> {
    if |messages| == 0 then [] else [Ok(messages[0])] + Delivered(messages[1..])
  }

  /** Main theorem: any concatenation of frames splits back into the same
      messages, in order, and nothing after them is touched. */
  lemma {:induction false} FramesSplitBack(messages: seq<seq<Byte>>, rest: seq<Byte>)
    requires forall m | m in messages :: |m| <= MAX_MESSAGE
    ensures ReadFrames(Frames(messages) + rest, |messages|) == (Delivered(messages), rest)
  {
    hide ReadFrame, Frame;
    if |messages| > 0 {
      var first, others := messages[0], messages[1..];
      assert Frames(messages) + rest == Frame(first) + (Frames(others) + rest);
      assert first in messages;
      FrameRoundTrip(first, Frames(others) + rest);
      FramesSplitBack(others, rest);
      assert (Frame(first) + (Frames(others) + rest))[|Frame(first)|..] == Frames(others) + rest;
    } else {
      assert Frames(messages) + rest == rest;
    }
  }

  /** Frames of any size are self-delimiting: two byte strings that start with a
      frame each and are equal hold the same message and the same remainder. */
  lemma FramesSelfDelimiting(a: seq<Byte>, restA: seq<Byte>, b: seq<Byte>, restB: seq<Byte>)
    requires |a| < TWO64 && |b| < TWO64 && Frame(a) + restA == Frame(b) + restB
    ensures a == b && restA == restB
  {
    hide Varint;
    var s := Frame(a) + restA;
    assert s == Varint(|a|) + (a + restA) && s == Varint(|b|) + (b + restB);
    VarintRoundTrip(|a|, a + restA);
    VarintRoundTrip(|b|, b + restB);
    var n := |Varint(|a|)|;
    assert a + restA == s[n..] && b + restB == s[n..];
    assert a == (a + restA)[..|a|] && b == (b + restB)[..|b|];
    assert restA == (a + restA)[|a|..] && restB == (b + restB)[|b|..];
  }

  lemma FramesPrefix(messages: seq<seq<Byte>>, j: nat)
    requires j < |messages|
    ensures Frames(messages) == Frame(messages[0]) + Frames(messages[1..])
    ensures messages[..j + 1][1..] == messages[1..][..j]
    ensures Frames(messages[..j + 1]) == Frame(messages[0]) + Frames(messages[1..][..j])
    ensures Delivered(messages[..j + 1]) == [Ok(messages[0])] + Delivered(messages[1..][..j])
  {
    assert messages[..j + 1][1..] == messages[1..][..j];
  }

  /** What reading a stream cut at n gives. */
  ghost predicate CutAt(messages: seq<seq<Byte>>, n: nat, j: nat)
    requires n < |Frames(messages)|
  {
    && j < |messages| && |Frames(messages[..j])| <= n < |Frames(messages[..j + 1])|
    && ReadFrames(Frames(messages)[..n], |messages|) == (Delivered(messages[..j]) + [Err(UnexpectedEof)], [])
  }

  lemma CutFirst(messages: seq<seq<Byte>>, n: nat)
    requires |messages| > 0 && |messages[0]| <= MAX_MESSAGE && n < |Frame(messages[0])|
    ensures n < |Frames(messages)| && CutAt(messages, n, 0)
  {
    hide ReadFrame, Frame;
    FramesPrefix(messages, 0);
    assert Frames(messages[1..][..0]) == [];
    var s := Frames(messages)[..n];
    assert s == Frame(messages[0])[..n];
    CutFrame(messages[0], n);
    assert s[n..] == [];
    var cut: seq<Result<seq<Byte>, FrameError>> := [Err(UnexpectedEof)];
    assert Delivered(messages[..0]) + cut == cut;
  }

  lemma CutLater(messages: seq<seq<Byte>>, n: nat, k: nat)
    requires |messages| > 0 && |messages[0]| <= MAX_MESSAGE && |Frame(messages[0])| <= n < |Frames(messages)|
    requires n - |Frame(messages[0])| < |Frames(messages[1..])|
    requires CutAt(messages[1..], n - |Frame(messages[0])|, k)
    ensures CutAt(messages, n, k + 1)
  {
    FramesPrefix(messages, k);
    FramesPrefix(messages, k + 1);
    hide ReadFrames, ReadFrame, Frame, Delivered, Frames;
    CutLaterReads(messages, n, k);
  }

  lemma CutLaterReads(messages: seq<seq<Byte>>, n: nat, k: nat)
    requires |messages| > 0 && |messages[0]| <= MAX_MESSAGE && |Frame(messages[0])| <= n < |Frames(messages)|
    requires n - |Frame(messages[0])| < |Frames(messages[1..])|
    requires CutAt(messages[1..], n - |Frame(messages[0])|, k)
    ensures ReadFrames(Frames(messages)[..n], |messages|) == (Delivered(messages[..k + 1]) + [Err(UnexpectedEof)], [])
  {
    FramesPrefix(messages, k);
    hide ReadFrames, ReadFrame, Frame, Delivered, Frames;
    SplitCut(Frame(messages[0]), Frames(messages[1..]), n);
    ReadsThen(messages[0], Frames(messages[1..])[..n - |Frame(messages[0])|], |messages| - 1,
              Delivered(messages[1..][..k]), Delivered(messages[..k + 1]), Err(UnexpectedEof));
  }

  lemma ReadsThen(first: seq<Byte>, rest: seq<Byte>, count: nat, told: seq<Result<seq<Byte>, FrameError>>,
                  all: seq<Result<seq<Byte>, FrameError>>, last: Result<seq<Byte>, FrameError>)
    requires |first| <= MAX_MESSAGE && ReadFrames(rest, count) == (told + [last], []) && all == [Ok(first)] + told
    ensures ReadFrames(Frame(first) + rest, count + 1) == (all + [last], [])
  {
    hide ReadFrames, ReadFrame, Frame;
    FrameRoundTrip(first, rest);
    NextRead(Frame(first) + rest, first, rest, count);
    Regrouped([Ok(first)], told, [last]);
  }

  lemma Regrouped<T>(a: seq<T>, b: seq<T>, c: seq<T>)
    ensures a + b + c == a + (b + c)
  {
  }

  lemma SplitCut(a: seq<Byte>, b: seq<Byte>, n: nat)
    requires |a| <= n <= |a| + |b|
    ensures (a + b)[..n] == a + b[..n - |a|]
  {
  }

  /** A read that succeeds, and the reads after it. */
  lemma NextRead(s: seq<Byte>, m: seq<Byte>, rest: seq<Byte>, count: nat)
    requires s == Frame(m) + rest && ReadFrame(s) == (Ok(m), |Frame(m)|)
    ensures ReadFrames(s, count + 1) == ([Ok(m)] + ReadFrames(rest, count).0, ReadFrames(rest, count).1)
  {
    hide ReadFrame, Frame;
    assert s[|Frame(m)|..] == rest;
  }

  /** A stream of frames cut anywhere yields the messages whose frames are complete,
      in order, then the end of the input, and nothing of the cut one. */
  lemma {:induction false} CutStream(messages: seq<seq<Byte>>, n: nat) returns (j: nat)
    requires (forall m | m in messages :: |m| <= MAX_MESSAGE) && n < |Frames(messages)|
    ensures j < |messages| && |Frames(messages[..j])| <= n < |Frames(messages[..j + 1])|
    ensures ReadFrames(Frames(messages)[..n], |messages|) == (Delivered(messages[..j]) + [Err(UnexpectedEof)], [])
  {
    hide ReadFrames, Frame, Delivered;
    assert messages[0] in messages;
    if n < |Frame(messages[0])| {
      CutFirst(messages, n);
      j := 0;
    } else {
      var k := CutStream(messages[1..], n - |Frame(messages[0])|);
      CutLater(messages, n, k);
      j := k + 1;
    }
  }

  // ---------------------------------------------------------- what the bytes are

  /** Byte k holds the k-th seven bits of the value, and the top bit exactly if another
      byte follows. */
  lemma {:induction false} VarintByte(v: nat, k: nat)
    requires k < |Varint(v)|
    ensures Varint(v)[k] % 128 == v / Pow128(k) % 128
    ensures Varint(v)[k] >= 128 <==> k < |Varint(v)| - 1
  {
    if k > 0 {
      VarintByte(v / 128, k - 1);
      DivTwice(v, Pow128(k - 1));
    }
  }

  lemma DivTwice(v: nat, b: nat)
    requires 0 < b
    ensures v / 128 / b == v / (128 * b)
  {
    var q, r := v / 128 / b, v / 128 % b;
    assert v / 128 == q * b + r;
    assert q * (128 * b) == 128 * (q * b);
    DivModUnique(v, 128 * b, q, 128 * r + v % 128);
  }

  /** The specification's own examples. */
  lemma VarintExamples()
    ensures Varint(1) == [0x01] && Varint(150) == [0x96, 0x01] && Varint(300) == [0xAC, 0x02]
    ensures Decode([0x96, 0x01]) == Some((150, 2))
  {
    VarintRoundTrip(150, []);
    assert Varint(150) + [] == [0x96, 0x01];
  }
}

/** The output ring in terms of bytes and samples:
    crates/around-engine/src/cpal_adapter.rs:180-334. */
module RingLaws {
  import opened Arith
  import opened Pcm
  import opened Bytes
  import opened SampleCodec
  import opened OutputRing

  /** A callback for n bytes hears n bytes: the oldest of the ring in their order, then
      silence, and silence only once the ring is empty. */
  lemma CallbackHears(s: State, bytes: nat, f: Format)
    requires f.Valid() && bytes % f.frameBytes == 0
    ensures var u := Next(s, Callback(bytes), f);
            var heard := u.delivered[|s.delivered|..];
            && |u.delivered| == |s.delivered| + bytes && s.delivered <= u.delivered
            && (forall i | 0 <= i < bytes ::
                  if i < |s.queue| then heard[i] == Played(s.queue[i])
                  else heard[i] == Quiet(SilenceBytes(f.encoding, f.host, bytes - |s.queue|)[i - |s.queue|]))
            && (if bytes <= |s.queue| then u.queue == s.queue[bytes..] else u.queue == [])
            && u.rest == s.rest && u.submitted == s.submitted && u.lost == s.lost
  {
    hide SilenceBytes, AsPlayed, AsQuiet;
    var popped := Min(|s.queue|, bytes);
    var silence := SilenceBytes(f.encoding, f.host, bytes - popped);
    Appended(s.delivered, AsPlayed(s.queue[..popped]), AsQuiet(silence));
    Sounds(s.queue[..popped], silence);
  }

  lemma Appended<T>(a: seq<T>, b: seq<T>, c: seq<T>)
    ensures (a + b + c)[|a|..] == b + c && a <= a + b + c
  {
  }

  lemma Sounds(played: seq<Byte>, quiet: seq<Byte>)
    ensures forall i | 0 <= i < |played| + |quiet| ::
              (AsPlayed(played) + AsQuiet(quiet))[i]
              == if i < |played| then Played(played[i]) else Quiet(quiet[i - |played|])
  {
  }

  /** The ring holds 16384 frames: a block goes in at once exactly if it is no longer. */
  lemma OneBlockFits(block: seq<Byte>, f: Format)
    requires f.Valid() && |block| % f.frameBytes == 0 && block != []
    ensures var s := Next(Start, Submit(block), f);
            && Enabled(s, Push, f)
            && (Next(s, Push, f).rest == [] <==> |block| <= 16384 * f.frameBytes)
            && Next(s, Push, f).queue + Next(s, Push, f).rest == block
  {
    var s := Next(Start, Submit(block), f);
    var pushed := Min(f.Capacity(), |block|);
    assert block == block[..pushed] + block[pushed..];
    assert [] + block[..pushed] == block[..pushed];
  }

  /** A writer may give up exactly when its push found the ring full and the device is
      lost by then; a new block, or a push that moves something, takes that back. */
  lemma GiveUpNeedsAFullRing(s: State, block: seq<Byte>, bytes: nat, f: Format)
    requires f.Valid() && bytes % f.frameBytes == 0
    ensures Enabled(s, Push, f) ==>
              var u := Next(s, Push, f);
              && (Enabled(u, GiveUp, f) <==> s.lost && |s.queue| >= 16384 * f.frameBytes)
              && (Enabled(Next(u, Lose, f), GiveUp, f) <==> |s.queue| >= 16384 * f.frameBytes)
              && (Enabled(Next(u, Callback(bytes), f), GiveUp, f) <==> Enabled(u, GiveUp, f))
    ensures Enabled(s, Submit(block), f) ==> !Enabled(Next(Next(s, Submit(block), f), Lose, f), GiveUp, f)
    ensures Enabled(s, GiveUp, f) ==> var u := Next(s, GiveUp, f); u.rest == [] && u.gaveUp && u.queue == s.queue
  {
  }

  /** Why a write is refused: a closed binding first, then a lost device, then a block
      of another format or not of whole frames. */
  lemma Refusals(closed: bool, lost: bool, sameSpec: bool, bytes: nat, f: Format)
    requires f.Valid()
    ensures closed ==> Refusal(closed, lost, sameSpec, bytes, f) == Some(RefusedClosed)
    ensures !closed && lost ==> Refusal(closed, lost, sameSpec, bytes, f) == Some(RefusedLost)
    ensures !closed && !lost ==>
              Refusal(closed, lost, sameSpec, bytes, f)
              == if sameSpec && bytes % f.frameBytes == 0 then None else Some(RefusedBlock)
  {
  }

  /** Silence repeats one sample, from the start. */
  lemma SilenceRepeats(enc: PcmEncoding, host: Host, n: nat, at: nat)
    requires at % enc.BytesPerSample() == 0 && at + enc.BytesPerSample() <= n
    ensures SilenceBytes(enc, host, n)[at..at + enc.BytesPerSample()] == SilentSample(enc, host)
  {
    hide SilentSample, Repeated;
    WholeChunks(at, n, enc.BytesPerSample());
    RepeatedChunk(SilentSample(enc, host), n, at);
  }

  lemma WholeChunks(at: nat, n: nat, w: nat)
    requires 0 < w && at % w == 0 && at + w <= n
    ensures at < n / w * w
  {
    assert n == n / w * w + n % w;
  }

  /** That sample is zero bytes, but for unsigned encodings, where a little-endian build
      ends it in 0x80. */
  lemma SilentSamples(enc: PcmEncoding, host: Host)
    ensures !enc.IsUnsigned() ==> SilentSample(enc, host) == seq(enc.BytesPerSample(), _ => 0)
    ensures enc == U8s && host == LittleHost ==> SilentSample(enc, host) == [0x80]
    ensures enc == U16s && host == LittleHost ==> SilentSample(enc, host) == [0x00, 0x80]
  {
    hide ToLe, SilentSample;
    if !enc.IsUnsigned() {
      QuietStart(enc, host);
    } else if enc == U8s && host == LittleHost {
      OneByteSilence();
    } else if enc == U16s && host == LittleHost {
      TwoByteSilence();
    }
  }

  lemma OneByteSilence()
    ensures SilentSample(U8s, LittleHost) == [0x80]
  {
    hide ToLe;
    ToLePrefix(0x80, 1, 16);
    LowBytes(0x80);
  }

  lemma TwoByteSilence()
    ensures SilentSample(U16s, LittleHost) == [0x00, 0x80]
  {
    hide ToLe;
    ToLePrefix(0x8000, 2, 16);
    LowBytes(0x8000);
  }

  lemma LowBytes(n: nat)
    ensures ToLe(n, 1) == [n % 256] && ToLe(n, 2) == [n % 256, n / 256 % 256]
  {
    assert ToLe(n / 256, 1) == [n / 256 % 256] + ToLe(n / 256 / 256, 0);
    assert ToLe(n, 1) == [n % 256] + ToLe(n / 256, 0);
    assert ToLe(n, 2) == [n % 256] + ToLe(n / 256, 1);
  }
}

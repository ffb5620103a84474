/** The decode loop with its session and workspace, as one function of the script,
    and what it delivers: crates/around-engine/src/pipeline.rs:398-567. */
module DecodeRun {
  import opened Arith
  import opened Pcm
  import opened Resampler
  import opened SampleCodec
  import opened FilterChain
  import opened ChainLaws
  import opened OutputPlan
  import opened OutputSession
  import opened DecodeScript

  const READ_FRAMES: nat := 4096

  // -------------------------------------------------------------- the function

  /** A session's value with the workspace the loop gives it. */
  datatype Deck = Deck(session: SessionValue, decode: seq<real>, regions: Regions)

  /** The workspace the loop allocates for a session. */
  function Rig(v: SessionValue): Deck
    requires v.chain.Valid()
  {
    var most := READ_FRAMES * v.chain.decodeSpec.channels;
    var (processing, bytes) := v.chain.Requirements(most);
    Deck(v, Zeros(most), Regions(Zeros(processing), processing, bytes))
  }

  /** rebind, and on success a workspace for the new format. */
  function Reconnected(d: Deck, snapshot: Option<Snapshot>, around: Around): (r: (Deck, Result<(), OutputError>))
    requires d.session.Agrees()
    ensures r.0.session.Agrees()
  {
    var (v, result) := RebindValue(d.session, snapshot, around);
    match result
    case Err(e) => (d, Err(e))
    case Ok(_) => (Rig(v), Ok(()))
  }

  /** What the codec leaves in the decode region. */
  function ReadInto(decode: seq<real>, t: Turn): (r: seq<real>)
    ensures |r| == |decode|
  {
    var n := Min(|t.samples|, |decode|);
    t.samples[..n] + decode[n..]
  }

  /** A positive read: its whole frames are submitted, and a lost device is
      reconnected if configured. */
  function BlockDeck(d: Deck, t: Turn, stream: Stream, around: Around)
    : (r: (Deck, Result<nat, OutputError>, Result<(), OutputError>))
    requires d.session.Agrees() && stream.Valid()
    ensures r.0.session.Agrees()
  {
    var (v, filter, outcome) := FromWorkspace(d.session, d.decode, Frames(t, stream), d.regions,
                                              t.lostMeanwhile, around);
    var after := Deck(v, d.decode, d.regions.(filter := filter));
    if Written(outcome) == Err(Lost) && stream.autoReconnect then
      var (next, rebound) := Reconnected(after, t.snapshotAfter, around);
      (next, Written(outcome), rebound)
    else (after, Written(outcome), Ok(()))
  }

  /** One read of the codec, and what becomes of it. */
  function ReadDeck(d: Deck, t: Turn, stream: Stream, around: Around)
    : (r: (Deck, Result<nat, OutputError>, Result<(), OutputError>))
    requires d.session.Agrees() && stream.Valid()
    ensures r.0.session.Agrees()
  {
    var d2 := d.(decode := ReadInto(d.decode, t));
    if t.read <= 0 then (d2, Ok(0), Ok(())) else BlockDeck(d2, t, stream, around)
  }

  /** Whether the turn gets as far as reading. */
  predicate Plays(p: Playback, t: Turn, rebound: Result<(), OutputError>, stream: Stream) {
    var q := AfterDevice(p, t, rebound, stream).0;
    !p.done && !t.cancelled && !q.done && (if t.control.Some? then t.control.value else q.status) != Paused
  }

  const Idle := Answer(Ok(()), Ok(0), Ok(()))

  /** The device phase of a turn. */
  function DeviceDeck(d: Deck, t: Turn, stream: Stream, around: Around): (r: (Deck, Result<(), OutputError>))
    requires d.session.Agrees()
    ensures r.0.session.Agrees()
  {
    if t.deviceLost && stream.autoReconnect then Reconnected(d, t.snapshot, around) else (d, Ok(()))
  }

  /** The rest of the turn, if it gets so far. */
  function PlayDeck(d: Deck, rebound: Result<(), OutputError>, p: Playback, t: Turn, stream: Stream, around: Around)
    : (r: (Deck, Answer))
    requires d.session.Agrees() && stream.Valid()
    ensures r.0.session.Agrees() && r.1.rebound == rebound
  {
    if !Plays(p, t, rebound, stream) then (d, Idle.(rebound := rebound))
    else
      var (d2, submitted, reboundAfter) := ReadDeck(d, t, stream, around);
      (d2, Answer(rebound, submitted, reboundAfter))
  }

  function TurnBody(d: Deck, p: Playback, t: Turn, stream: Stream, around: Around): (r: (Deck, Answer))
    requires d.session.Agrees() && stream.Valid()
    ensures r.0.session.Agrees()
  {
    if p.done || t.cancelled then (d, Idle)
    else
      var (d1, rebound) := DeviceDeck(d, t, stream, around);
      PlayDeck(d1, rebound, p, t, stream, around)
  }

  function WithDevice(d: Deck, lost: bool): Deck {
    d.(session := d.session.(lost := lost))
  }

  /** The device as a turn finds it, and as it leaves it. */
  function LostIn(lost: bool, t: Turn): bool { if t.lost.Some? then t.lost.value else lost }

  function LostAfter(lost: bool, turns: seq<Turn>): bool {
    if |turns| == 0 then lost
    else
      var t := turns[|turns| - 1];
      LostIn(LostAfter(lost, turns[..|turns| - 1]), t) || t.lostMeanwhile
  }

  /** One turn: the device changes before it and, at the latest, at its end. */
  function TurnDeck(d: Deck, p: Playback, t: Turn, stream: Stream, around: Around): (r: (Deck, Answer))
    requires d.session.Agrees() && stream.Valid()
    ensures r.0.session.Agrees()
  {
    var (after, answer) := TurnBody(WithDevice(d, LostIn(d.session.lost, t)), p, t, stream, around);
    (WithDevice(after, LostIn(d.session.lost, t) || t.lostMeanwhile), answer)
  }

  /** The whole run: session and workspace, and what the session answered. */
  function Perform(d: Deck, turns: seq<Turn>, stream: Stream, around: Around): (r: (Deck, seq<Answer>))
    requires d.session.Agrees() && stream.Valid()
    ensures r.0.session.Agrees() && |r.1| == |turns|
  {
    if |turns| == 0 then (d, [])
    else
      var n := |turns| - 1;
      var (before, answers) := Perform(d, turns[..n], stream, around);
      var p := Run(turns[..n], answers, stream).0;
      var (after, answer) := TurnDeck(before, p, turns[n], stream, around);
      (after, answers + [answer])
  }

  /** The codec fills no more than it was given and reports what it filled. */
  predicate Honest(t: Turn, stream: Stream) {
    t.read <= 0 || t.read == |t.samples| <= READ_FRAMES * stream.channels
  }

  // --------------------------------------------------- what reached the device

  /** Samples of the blocks delivered since the last rebind. */
  function Heard(log: seq<Event>): seq<real> {
    if |log| == 0 then []
    else
      var last := log[|log| - 1];
      match last
      case Rebound => []
      case Delivered(samples, _) => Heard(log[..|log| - 1]) + samples
      case _ => Heard(log[..|log| - 1])
  }

  function BlocksSince(log: seq<Event>): nat {
    if |log| == 0 then 0
    else
      var last := log[|log| - 1];
      match last
      case Rebound => 0
      case Delivered(_, _) => BlocksSince(log[..|log| - 1]) + 1
      case _ => BlocksSince(log[..|log| - 1])
  }

  function Deliveries(log: seq<Event>): nat {
    if |log| == 0 then 0
    else Deliveries(log[..|log| - 1]) + (if log[|log| - 1].Delivered? then 1 else 0)
  }

  function Joined(blocks: seq<seq<Byte>>): seq<Byte> {
    if |blocks| == 0 then [] else Joined(blocks[..|blocks| - 1]) + blocks[|blocks| - 1]
  }

  lemma LogAppend(log: seq<Event>, e: Event)
    ensures Heard(log + [e]) == if e.Rebound? then [] else if e.Delivered? then Heard(log) + e.samples else Heard(log)
    ensures BlocksSince(log + [e])
         == if e.Rebound? then 0 else if e.Delivered? then BlocksSince(log) + 1 else BlocksSince(log)
    ensures Deliveries(log + [e]) == Deliveries(log) + (if e.Delivered? then 1 else 0)
  {
    assert (log + [e])[..|log|] == log;
  }

  /** Seeks neither deliver nor rebind. */
  lemma {:induction false} SeeksAreSilent(p: Playback, log: seq<Event>, seeks: seq<Seek>, stream: Stream)
    requires stream.Valid()
    ensures var (_, events) := AfterSeeks(p, seeks, stream);
            Heard(log + events) == Heard(log) && BlocksSince(log + events) == BlocksSince(log)
              && Deliveries(log + events) == Deliveries(log)
  {
    hide Milliseconds, RequestedFrame, Heard, BlocksSince, Deliveries;
    if |seeks| == 0 {
      var none: seq<Event> := [];
      assert log + none == log;
    } else {
      var n := |seeks| - 1;
      SeeksAreSilent(p, log, seeks[..n], stream);
      var (_, events) := AfterSeeks(p, seeks[..n], stream);
      var (_, more) := AfterSeeks(p, seeks, stream);
      LogAppend(log + events, more[|more| - 1]);
      assert log + more == (log + events) + [more[|more| - 1]];
    }
  }

  // ------------------------------------------------------------ the workspace

  /** What the loop keeps between turns. */
  predicate Rigged(d: Deck, stream: Stream) {
    && stream.Valid() && d.session.Agrees() && !d.session.closed && CodecFed(d.session.chain)
    && stream.channels == d.session.chain.decodeSpec.channels && stream.rate == d.session.chain.decodeSpec.sampleRate
    && |d.decode| == READ_FRAMES * stream.channels
    && Sized(d.session.chain, READ_FRAMES * stream.channels, |d.regions.filter|, d.regions.room, d.regions.outputLength)
  }

  /** Required sizes never leave the address range. */
  lemma BytesFit(ch: Chain)
    requires ch.Valid()
    ensures ch.Requirements(READ_FRAMES * ch.decodeSpec.channels).1 <= USIZE_MAX
  {
    hide SampleSpec.BytesPerFrame, CeilDiv;
    DivModUnique(READ_FRAMES * ch.decodeSpec.channels, ch.decodeSpec.channels, READ_FRAMES, 0);
    CeilDivAtMost(READ_FRAMES * ch.outputSpec.sampleRate, ch.decodeSpec.sampleRate);
    FrameBytesAtMost(ch.outputSpec);
    ProductAtMost(ch.RoomFor(READ_FRAMES), READ_FRAMES * 0xFFFF_FFFF + 2, ch.outputSpec.BytesPerFrame(), 256);
  }

  lemma FrameBytesAtMost(spec: SampleSpec)
    requires spec.Valid()
    ensures spec.BytesPerFrame() <= 256
  {
    ProductAtMost(spec.BytesPerSample(), 8, spec.channels, 32);
  }

  lemma ProductAtMost(a: nat, aMost: nat, b: nat, bMost: nat)
    requires a <= aMost && b <= bMost
    ensures a * b <= aMost * bMost
  {
    MulMonotone(a, aMost, b);
    MulMonotone(b, bMost, aMost);
  }

  lemma CeilDivAtMost(a: nat, b: nat)
    requires 0 < b
    ensures CeilDiv(a, b) <= a
  {
    if a > 0 && CeilDiv(a, b) > a {
      assert (a + b - 1) / b * b <= a + b - 1;
      MulMonotone(a + 1, CeilDiv(a, b), b);
      assert (a + 1) * b == a * b + b;
      MulMonotone(1, b, a);
    }
  }

  /** A workspace sized for a maximum serves every smaller block. */
  lemma SizedForLess(ch: Chain, maxSamples: nat, samples: nat, region: nat, room: nat, outputLength: nat)
    requires ch.Valid() && samples <= maxSamples && Sized(ch, maxSamples, region, room, outputLength)
    ensures Sized(ch, samples, region, room, outputLength)
  {
    hide Chain.Requirements;
    RequirementsGrow(ch, samples, maxSamples);
  }

  lemma RequirementsGrow(ch: Chain, samples: nat, maxSamples: nat)
    requires ch.Valid() && samples <= maxSamples
    ensures ch.Requirements(samples).0 <= ch.Requirements(maxSamples).0
    ensures ch.Requirements(samples).1 <= ch.Requirements(maxSamples).1
  {
    hide Chain.RoomFor, SampleSpec.BytesPerFrame;
    var channels := Max(ch.decodeSpec.channels, 1);
    var a, b := ch.RoomFor(samples / channels), ch.RoomFor(maxSamples / channels);
    assert a <= b by {
      DivMonotone(samples, maxSamples, channels);
      RoomGrows(ch, samples / channels, maxSamples / channels);
    }
    Scaled(a, b, ch.OutChannels());
    Scaled(a, b, ch.outputSpec.BytesPerFrame());
  }

  lemma Scaled(a: nat, b: nat, k: nat)
    requires a <= b
    ensures a * k <= b * k
  {
    MulMonotone(a, b, k);
  }

  lemma DivMonotone(a: nat, b: nat, d: nat)
    requires 0 < d && a <= b
    ensures a / d <= b / d
  {
    if a / d > b / d {
      MulMonotone(b / d + 1, a / d, d);
    }
  }

  /** The allocated workspace serves every read. */
  lemma RigIsRigged(v: SessionValue, stream: Stream)
    requires v.Agrees() && !v.closed && CodecFed(v.chain) && stream.Valid()
    requires stream.channels == v.chain.decodeSpec.channels && stream.rate == v.chain.decodeSpec.sampleRate
    ensures Rigged(Rig(v), stream)
  {
    BytesFit(v.chain);
  }

  /** Delivered bytes since the last rebind are the conversion, as one stream, of
      the samples delivered since then. */
  ghost predicate Faithful(ch: Chain, writes: seq<seq<Byte>>, log: seq<Event>, target: Target) {
    && CodecFed(ch)
    && BlocksSince(log) <= |writes|
    && Joined(writes[|writes| - BlocksSince(log)..]) == ExpectedBytes(ch, Heard(log), target)
  }

  /** While the loop runs, the resampler has also seen exactly those samples. */
  ghost predicate InStep(ch: Chain, writes: seq<seq<Byte>>, log: seq<Event>, target: Target) {
    Faithful(ch, writes, log, target) && Follows(ch, Heard(log))
  }

  /** One honest block through plain filters converts, and continues the stream. */
  lemma BlockConverts(ch: Chain, heard: seq<real>, t: Turn, stream: Stream, region: seq<real>, room: nat,
                      outputLength: nat, target: Target)
    requires Follows(ch, heard) && CodecFed(ch) && Preserving(ch.filters) && Local(ch.filters) && stream.Valid()
    requires ch.outputSpec.interleave == Interleaved && stream.channels == ch.decodeSpec.channels
    requires Honest(t, stream) && t.read > 0
    requires Sized(ch, READ_FRAMES * stream.channels, |region|, room, outputLength)
    ensures var (next, result) := ch.Process(BlockOf(t, stream), Frames(t, stream), region, room, outputLength, target);
            && result.Ok? && Follows(ch.(history := next), heard + BlockOf(t, stream))
            && CodecFed(ch.(history := next))
            && ExpectedBytes(ch, heard, target) + result.value
               == ExpectedBytes(ch.(history := next), heard + BlockOf(t, stream), target)
  {
    hide Follows, Preserving, Local, ExpectedBytes, Chain.Process, Sized, Frames, BlockOf;
    var frames := Frames(t, stream);
    var input := BlockOf(t, stream);
    BlockFits(t, stream);
    SizedForLess(ch, READ_FRAMES * stream.channels, |input|, |region|, room, outputLength);
    var b := ChainLaws.Block.Block(input, frames, region, room, outputLength);
    PlayBlock(ch, heard, b, target);
    HistoryIsIrrelevant(ch, ch.Process(input, frames, region, room, outputLength, target).0, heard + input, target);
  }

  lemma BlockFits(t: Turn, stream: Stream)
    requires stream.Valid() && Honest(t, stream) && t.read > 0
    ensures Frames(t, stream) * stream.channels == |BlockOf(t, stream)| <= |t.samples|
    ensures |t.samples| <= READ_FRAMES * stream.channels <= USIZE_MAX
    ensures BlockOf(t, stream) == t.samples[..Frames(t, stream) * stream.channels]
  {
    assert t.read / stream.channels * stream.channels <= t.read;
    MulMonotone(stream.channels, 32, READ_FRAMES);
  }

  lemma JoinedAppend(blocks: seq<seq<Byte>>, last: seq<Byte>, n: nat)
    requires n <= |blocks|
    ensures Joined((blocks + [last])[|blocks| - n..]) == Joined(blocks[|blocks| - n..]) + last
  {
    var tail := (blocks + [last])[|blocks| - n..];
    assert tail[..|tail| - 1] == blocks[|blocks| - n..];
  }

  /** Delivering that block keeps the device's bytes faithful. */
  lemma DeliveryIsFaithful(ch: Chain, writes: seq<seq<Byte>>, log: seq<Event>, t: Turn, stream: Stream,
                           region: seq<real>, room: nat, outputLength: nat, target: Target)
    requires InStep(ch, writes, log, target) && Preserving(ch.filters) && Local(ch.filters) && stream.Valid()
    requires ch.Valid() && ch.outputSpec.interleave == Interleaved && stream.channels == ch.decodeSpec.channels
    requires Honest(t, stream) && t.read > 0
    requires Sized(ch, READ_FRAMES * stream.channels, |region|, room, outputLength)
    ensures var (next, result) := ch.Process(BlockOf(t, stream), Frames(t, stream), region, room, outputLength, target);
            && result.Ok?
            && InStep(ch.(history := next), writes + [result.value],
                        log + [Delivered(BlockOf(t, stream), Frames(t, stream))], target)
  {
    hide Follows, Preserving, Local, ExpectedBytes, Chain.Process, Sized, Frames, BlockOf, Heard, BlocksSince, Joined;
    BlockConverts(ch, Heard(log), t, stream, region, room, outputLength, target);
    var (next, result) := ch.Process(BlockOf(t, stream), Frames(t, stream), region, room, outputLength, target);
    LogAppend(log, Delivered(BlockOf(t, stream), Frames(t, stream)));
    JoinedAppend(writes, result.value, BlocksSince(log));
  }

  /** Sizes depend on formats only. */
  lemma SizedAnyHistory(ch: Chain, history: State, maxSamples: nat, region: nat, room: nat, outputLength: nat)
    requires ch.Valid() && |history.previous| == MAX_CHANNELS && Sized(ch, maxSamples, region, room, outputLength)
    ensures Sized(ch.(history := history), maxSamples, region, room, outputLength)
  {
  }

  /** Nothing but a delivery or a rebind concerns the device's bytes, whatever the
      resampler now holds. */
  lemma QuietIsFaithful(ch: Chain, history: State, writes: seq<seq<Byte>>, log: seq<Event>, e: Event, target: Target)
    requires Faithful(ch, writes, log, target) && |history.previous| == MAX_CHANNELS
    requires !e.Delivered? && !e.Rebound?
    ensures Faithful(ch.(history := history), writes, log + [e], target)
    ensures Heard(log + [e]) == Heard(log)
  {
    hide ExpectedBytes, Heard, BlocksSince, Joined;
    LogAppend(log, e);
    HistoryIsIrrelevant(ch, history, Heard(log), target);
  }

  /** A rebound chain starts a new stream with nothing delivered. */
  lemma RebindIsFaithful(ch: Chain, writes: seq<seq<Byte>>, log: seq<Event>, target: Target)
    requires CodecFed(ch) && ch.history == State(0, Silence(), false)
    ensures InStep(ch, writes, log + [Rebound], target)
  {
    LogAppend(log, Rebound);
    assert writes[|writes| - 0..] == [];
  }

  lemma DeviceDelivers(p: Playback, t: Turn, rebound: Result<(), OutputError>, stream: Stream)
    ensures var (q, events) := AfterDevice(p, t, rebound, stream);
            Deliveries(events) == 0 && (!q.done ==> q.failure == p.failure)
  {
  }

  lemma SeeksDeliverNothing(p: Playback, seeks: seq<Seek>, stream: Stream)
    requires stream.Valid()
    ensures Deliveries(AfterSeeks(p, seeks, stream).1) == 0
  {
    SeeksAreSilent(p, [], seeks, stream);
    var events := AfterSeeks(p, seeks, stream).1;
    assert [] + events == events;
  }

  lemma {:induction false} DeliveriesAdd(a: seq<Event>, b: seq<Event>)
    ensures Deliveries(a + b) == Deliveries(a) + Deliveries(b)
  {
    if |b| == 0 {
      assert a + b == a;
    } else {
      var n := |b| - 1;
      assert (a + b)[..|a + b| - 1] == a + b[..n];
      DeliveriesAdd(a, b[..n]);
    }
  }

  // ----------------------------------------------------------- what is kept

  /** Source format, filters and the workspace's fitness survive every part. */
  ghost predicate SameSource(a: Deck, b: Deck) {
    a.session.chain.decodeSpec == b.session.chain.decodeSpec && a.session.chain.filters == b.session.chain.filters
  }

  lemma ReconnectedKeeps(d: Deck, snapshot: Option<Snapshot>, stream: Stream, around: Around)
    requires Rigged(d, stream)
    ensures var (u, r) := Reconnected(d, snapshot, around);
            && Rigged(u, stream) && SameSource(d, u) && u.session.writes == d.session.writes
              && u.session.lost == d.session.lost
            && (r.Err? ==> u == d)
            && (r.Ok? ==> u.session.chain.history == State(0, Silence(), false))
  {
    hide Sized, Replanned, Rig;
    var (v, result) := RebindValue(d.session, snapshot, around);
    if result.Ok? {
      RigIsRigged(v, stream);
      assert Rig(v).session == v by {
        RigSession(v);
      }
    }
  }

  lemma RigSession(v: SessionValue)
    requires v.chain.Valid()
    ensures Rig(v).session == v
  {
  }

  /** The parts of a block that reaches the session. */
  lemma SubmissionKeeps(d: Deck, t: Turn, stream: Stream, around: Around)
    requires Rigged(d, stream)
    ensures var (v, filter, outcome) := FromWorkspace(d.session, d.decode, Frames(t, stream), d.regions,
                                                      t.lostMeanwhile, around);
            var u := Deck(v, d.decode, d.regions.(filter := filter));
            && Rigged(u, stream) && SameSource(d, u) && u.session.chain == d.session.chain.(history := v.chain.history)
            && u.session.writes == d.session.writes
                                   + (if outcome.Ok? && !around.discard then [outcome.value] else [])
            && (d.session.lost ==> outcome == Err(Lost))
  {
    hide Sized, Chain.Process, Chain.Region;
    var (v, filter, outcome) := FromWorkspace(d.session, d.decode, Frames(t, stream), d.regions,
                                              t.lostMeanwhile, around);
    SizedAnyHistory(d.session.chain, v.chain.history, READ_FRAMES * stream.channels, |d.regions.filter|, d.regions.room,
                    d.regions.outputLength);
  }

  lemma ReadKeeps(d: Deck, t: Turn, stream: Stream)
    requires Rigged(d, stream)
    ensures Rigged(d.(decode := ReadInto(d.decode, t)), stream)
    ensures Honest(t, stream) && t.read > 0 ==> ReadInto(d.decode, t)[..|t.samples|] == t.samples
  {
  }

  lemma BlockKeeps(d: Deck, t: Turn, stream: Stream, around: Around)
    requires Rigged(d, stream) && t.read > 0
    ensures var (u, submitted, rebound) := BlockDeck(d, t, stream, around);
            && Rigged(u, stream) && SameSource(d, u)
            && d.session.writes <= u.session.writes
            && |u.session.writes| == |d.session.writes| + (if submitted.Ok? && !around.discard then 1 else 0)
            && (d.session.lost ==> submitted == Err(Lost))
            && (submitted == Err(Lost) && stream.autoReconnect ==>
                  rebound
                    == Erased(Replanned(t.snapshotAfter, d.session.chain.decodeSpec, around.preferences,
                                        around.binder)))
  {
    assert d.session.Agrees() && stream.Valid();
    hide Rigged, Replanned, FromWorkspace;
    SubmissionKeeps(d, t, stream, around);
    var (v, filter, outcome) := FromWorkspace(d.session, d.decode, Frames(t, stream), d.regions,
                                              t.lostMeanwhile, around);
    var after := Deck(v, d.decode, d.regions.(filter := filter));
    ReconnectedKeeps(after, t.snapshotAfter, stream, around);
  }

  function Erased<T>(r: Result<T, OutputError>): Result<(), OutputError> {
    match r
    case Err(e) => Err(e)
    case Ok(_) => Ok(())
  }

  lemma DeviceKeeps(d: Deck, lost: bool, stream: Stream)
    requires Rigged(d, stream)
    ensures Rigged(WithDevice(d, lost), stream) && SameSource(d, WithDevice(d, lost))
  {
  }

  /** One turn keeps the deck fit; the device is as the script says, and the rebinds
      answer what the planner and the binder decide. */
  lemma TurnKeeps(d: Deck, p: Playback, t: Turn, stream: Stream, around: Around)
    requires Rigged(d, stream)
    ensures var (u, a) := TurnDeck(d, p, t, stream, around);
            && Rigged(u, stream) && SameSource(d, u) && u.session.lost == (LostIn(d.session.lost, t) || t.lostMeanwhile)
            && d.session.writes <= u.session.writes
            && AnswersRightly(a, p, t, d.session.chain.decodeSpec, LostIn(d.session.lost, t), stream, around)
  {
    hide Rigged, BlockDeck, Reconnected, Replanned, AfterDevice;
    var d0 := WithDevice(d, LostIn(d.session.lost, t));
    DeviceKeeps(d, LostIn(d.session.lost, t), stream);
    var (u0, a) := TurnBody(d0, p, t, stream, around);
    if !p.done && !t.cancelled {
      ReconnectedKeeps(d0, t.snapshot, stream, around);
      ReconnectedAnswer(d0, t.snapshot, around);
      var (d1, rebound) := DeviceDeck(d0, t, stream, around);
      if Plays(p, t, rebound, stream) {
        ReadKeeps(d1, t, stream);
        if t.read > 0 {
          BlockKeeps(d1.(decode := ReadInto(d1.decode, t)), t, stream, around);
        }
      }
    }
    DeviceKeeps(u0, LostIn(d.session.lost, t) || t.lostMeanwhile, stream);
  }

  lemma ReconnectedAnswer(d: Deck, snapshot: Option<Snapshot>, around: Around)
    requires d.session.Agrees()
    ensures Reconnected(d, snapshot, around).1
         == Erased(Replanned(snapshot, d.session.chain.decodeSpec, around.preferences, around.binder))
  {
    hide Replanned;
  }

  /** An answer the script accounts for: rebinds answer as replanning does, and a
      submission to a lost device is refused as such. */
  predicate AnswersRightly(a: Answer, p: Playback, t: Turn, source: SampleSpec, lost: bool, stream: Stream,
                           around: Around) {
    !p.done && !t.cancelled ==>
      && (t.deviceLost && stream.autoReconnect ==>
            a.rebound == Erased(Replanned(t.snapshot, source, around.preferences, around.binder)))
      && (Plays(p, t, a.rebound, stream) && t.read > 0 ==>
            && (lost ==> a.submitted == Err(Lost))
            && (a.submitted == Err(Lost) && stream.autoReconnect ==>
                  a.reboundAfter == Erased(Replanned(t.snapshotAfter, source, around.preferences, around.binder))))
  }

  // ------------------------------------------------------ submissions, exactly

  /** With preserving filters an honest read is delivered exactly when the device is
      there, before and during the write; nothing else can refuse it. */
  lemma SubmissionExactly(d: Deck, t: Turn, stream: Stream, around: Around)
    requires Rigged(d, stream) && Preserving(d.session.chain.filters) && Honest(t, stream) && t.read > 0
    requires d.decode[..|t.samples|] == t.samples
    ensures var outcome := FromWorkspace(d.session, d.decode, Frames(t, stream), d.regions, t.lostMeanwhile, around).2;
            && (outcome.Ok? <==> !d.session.lost && !t.lostMeanwhile)
            && (outcome.Err? ==> outcome == Err(Lost))
  {
    hide Sized, Chain.Process, Chain.Region, Preserving;
    BlockFits(t, stream);
    assert d.decode[..Frames(t, stream) * stream.channels] == BlockOf(t, stream);
    SizedNeverTooSmall(d.session.chain, READ_FRAMES * stream.channels, BlockOf(t, stream), Frames(t, stream),
                       d.regions.filter, d.regions.room, d.regions.outputLength, around.target);
  }

  lemma TurnSubmits(d: Deck, p: Playback, t: Turn, stream: Stream, around: Around)
    requires Rigged(d, stream) && Preserving(d.session.chain.filters) && Honest(t, stream) && t.read > 0
    requires var a := TurnDeck(d, p, t, stream, around).1; Plays(p, t, a.rebound, stream)
    ensures var a := TurnDeck(d, p, t, stream, around).1;
            && (a.submitted.Ok? <==> !LostIn(d.session.lost, t) && !t.lostMeanwhile)
            && (a.submitted.Err? ==> a.submitted == Err(Lost))
  {
    hide Rigged, Reconnected, Replanned, AfterDevice, Preserving, FromWorkspace, Honest;
    var d0 := WithDevice(d, LostIn(d.session.lost, t));
    DeviceKeeps(d, LostIn(d.session.lost, t), stream);
    ReconnectedKeeps(d0, t.snapshot, stream, around);
    var (d1, rebound) := DeviceDeck(d0, t, stream, around);
    ReadKeeps(d1, t, stream);
    SubmissionExactly(d1.(decode := ReadInto(d1.decode, t)), t, stream, around);
  }

  // -------------------------------------------------------- what the device got

  /** Filters under which blocks do not matter: length-preserving and per sample. */
  ghost predicate Plain(d: Deck) {
    Preserving(d.session.chain.filters) && Local(d.session.chain.filters)
  }

  /** The device's bytes are the conversion of what was delivered, and while the loop
      runs the resampler has seen just that. */
  ghost predicate Claims(d: Deck, p: Playback, log: seq<Event>, target: Target) {
    && Faithful(d.session.chain, d.session.writes, log, target)
    && (!p.done ==> Follows(d.session.chain, Heard(log)))
    && (p.failure.Some? && p.failure.value.OutputFailed? ==> p.failure.value.error == Lost)
  }

  lemma ReconnectedClaims(d: Deck, snapshot: Option<Snapshot>, log: seq<Event>, stream: Stream, around: Around)
    requires Rigged(d, stream)
    ensures var (u, r) := Reconnected(d, snapshot, around);
            r.Ok? ==> InStep(u.session.chain, u.session.writes, log + [Rebound], around.target)
  {
    hide Sized, InStep, Replanned;
    ReconnectedKeeps(d, snapshot, stream, around);
    var (u, r) := Reconnected(d, snapshot, around);
    if r.Ok? {
      RebindIsFaithful(u.session.chain, u.session.writes, log, around.target);
    }
  }

  lemma DeviceClaims(d: Deck, p: Playback, log: seq<Event>, t: Turn, stream: Stream, around: Around)
    requires Rigged(d, stream) && !p.done && p.failure.None? && Claims(d, p, log, around.target)
    ensures var (u, rebound) := DeviceDeck(d, t, stream, around);
            var (q, events) := AfterDevice(p, t, rebound, stream);
            Claims(u, q, log + events, around.target)
  {
    hide Rigged, Follows, Faithful, Heard, Reconnected;
    assert log + [] == log;
    ReconnectedKeeps(d, t.snapshot, stream, around);
    ReconnectedClaims(d, t.snapshot, log, stream, around);
  }

  /** Seeks leave every claim about the device as it was. */
  lemma SeeksClaims(d: Deck, p: Playback, log: seq<Event>, seeks: seq<Seek>, stream: Stream, target: Target)
    requires stream.Valid() && Claims(d, p, log, target)
    ensures var (q, events) := AfterSeeks(p, seeks, stream); Claims(d, q, log + events, target)
  {
    hide ExpectedBytes, Joined, Follows;
    SeeksAreSilent(p, log, seeks, stream);
  }

  lemma DeliveredClaims(d: Deck, p: Playback, log: seq<Event>, t: Turn, stream: Stream, around: Around)
    requires Rigged(d, stream) && Plain(d) && Honest(t, stream) && t.read > 0 && !around.discard
    requires !p.done && p.failure.None? && Claims(d, p, log, around.target) && d.decode[..|t.samples|] == t.samples
    ensures var (v, filter, outcome) := FromWorkspace(d.session, d.decode, Frames(t, stream), d.regions,
                                                      t.lostMeanwhile, around);
            && (outcome.Ok? ==>
                  InStep(v.chain, v.writes, log + [Delivered(BlockOf(t, stream), Frames(t, stream))], around.target))
            && (outcome.Err? ==> outcome == Err(Lost) && Faithful(v.chain, v.writes, log + [Skipped], around.target))
  {
    hide Sized, Chain.Process, Chain.Region, Preserving, Local, Follows, Faithful, BlockOf;
    BlockFits(t, stream);
    assert d.decode[..Frames(t, stream) * stream.channels] == BlockOf(t, stream);
    DeliveryIsFaithful(d.session.chain, d.session.writes, log, t, stream, d.regions.filter, d.regions.room,
                       d.regions.outputLength, around.target);
    var v := FromWorkspace(d.session, d.decode, Frames(t, stream), d.regions, t.lostMeanwhile, around).0;
    QuietIsFaithful(d.session.chain, v.chain.history, d.session.writes, log, Skipped, around.target);
    SubmissionKeeps(d, t, stream, around);
    assert d.session.writes + [] == d.session.writes;
  }

  /** What each end of a block makes of the playback: delivered, ... */
  lemma DeliveredBlock(u: Deck, p: Playback, log: seq<Event>, t: Turn, n: nat, stream: Stream, target: Target)
    requires stream.Valid() && t.read > 0 && !p.done && p.failure.None?
    requires InStep(u.session.chain, u.session.writes, log + [Delivered(BlockOf(t, stream), Frames(t, stream))], target)
    ensures var (q, events) := AfterRead(p, t, Ok(n), Ok(()), stream); Claims(u, q, log + events, target)
  {
    hide Follows, Faithful, Milliseconds, Frames, BlockOf;
  }

  /** ... lost and reconnected, ... */
  lemma ReconnectedBlock(u: Deck, p: Playback, log: seq<Event>, t: Turn, stream: Stream, target: Target)
    requires stream.Valid() && t.read > 0 && stream.autoReconnect && !p.done && p.failure.None?
    requires InStep(u.session.chain, u.session.writes, log + [Skipped] + [Rebound], target)
    ensures var (q, events) := AfterRead(p, t, Err(Lost), Ok(()), stream); Claims(u, q, log + events, target)
  {
    hide Follows, Faithful;
    assert log + [Skipped, Rebound] == log + [Skipped] + [Rebound];
  }

  /** ... or lost for good, which ends the run. */
  lemma EndingBlock(u: Deck, p: Playback, log: seq<Event>, t: Turn, rebound: Result<(), OutputError>, stream: Stream,
                    target: Target)
    requires stream.Valid() && t.read > 0 && (stream.autoReconnect ==> rebound.Err?)
    requires Faithful(u.session.chain, u.session.writes, log + [Skipped], target)
    ensures var (q, events) := AfterRead(p, t, Err(Lost), rebound, stream); Claims(u, q, log + events, target)
  {
    hide Follows, Faithful;
  }

  lemma BlockClaims(d: Deck, p: Playback, log: seq<Event>, t: Turn, stream: Stream, around: Around)
    requires Rigged(d, stream) && Plain(d) && Honest(t, stream) && t.read > 0 && !around.discard
    requires !p.done && p.failure.None? && Claims(d, p, log, around.target) && d.decode[..|t.samples|] == t.samples
    ensures var (u, submitted, rebound) := BlockDeck(d, t, stream, around);
            var (q, events) := AfterRead(p, t, submitted, rebound, stream);
            Claims(u, q, log + events, around.target)
  {
    assert d.session.Agrees() && stream.Valid();
    hide *;
    DeliveredClaims(d, p, log, t, stream, around);
    BlockCases(d, t, stream, around);
    var (v, filter, outcome) := FromWorkspace(d.session, d.decode, Frames(t, stream), d.regions,
                                              t.lostMeanwhile, around);
    var after := Deck(v, d.decode, d.regions.(filter := filter));
    if outcome.Ok? {
      DeliveredBlock(after, p, log, t, |outcome.value|, stream, around.target);
    } else if stream.autoReconnect {
      SubmissionKeeps(d, t, stream, around);
      ReconnectedClaims(after, t.snapshotAfter, log + [Skipped], stream, around);
      LostBlock(after, p, log, t, stream, around);
    } else {
      EndingBlock(after, p, log, t, Ok(()), stream, around.target);
    }
  }

  lemma BlockCases(d: Deck, t: Turn, stream: Stream, around: Around)
    requires d.session.Agrees() && stream.Valid()
    ensures var (v, filter, outcome) := FromWorkspace(d.session, d.decode, Frames(t, stream), d.regions,
                                                      t.lostMeanwhile, around);
            var after := Deck(v, d.decode, d.regions.(filter := filter));
            var (next, rebound) := Reconnected(after, t.snapshotAfter, around);
            BlockDeck(d, t, stream, around) ==
            if outcome.Ok? then (after, Ok(|outcome.value|), Ok(()))
            else if outcome == Err(Lost) && stream.autoReconnect then (next, Err(Lost), rebound)
            else (after, Err(outcome.error), Ok(()))
  {
    hide FromWorkspace, Reconnected;
  }

  /** A lost block, whichever way the reconnection goes. */
  lemma LostBlock(d: Deck, p: Playback, log: seq<Event>, t: Turn, stream: Stream, around: Around)
    requires Rigged(d, stream) && t.read > 0 && stream.autoReconnect && !p.done && p.failure.None?
    requires Faithful(d.session.chain, d.session.writes, log + [Skipped], around.target)
    requires var (u, r) := Reconnected(d, t.snapshotAfter, around);
             r.Ok? ==> InStep(u.session.chain, u.session.writes, log + [Skipped] + [Rebound], around.target)
    ensures var (u, r) := Reconnected(d, t.snapshotAfter, around);
            var (q, events) := AfterRead(p, t, Err(Lost), r, stream);
            Claims(u, q, log + events, around.target)
  {
    ReconnectedKeeps(d, t.snapshotAfter, stream, around);
    assert d.session.Agrees() && stream.Valid();
    hide Rigged, Claims, InStep, Faithful, Reconnected, AfterRead;
    var (u, r) := Reconnected(d, t.snapshotAfter, around);
    if r.Ok? {
      ReconnectedBlock(u, p, log, t, stream, around.target);
    } else {
      EndingBlock(u, p, log, t, r, stream, around.target);
    }
  }

  lemma ReadClaims(d: Deck, p: Playback, log: seq<Event>, t: Turn, stream: Stream, target: Target)
    requires stream.Valid() && d.session.Agrees() && !p.done && p.failure.None? && t.read <= 0
             && Claims(d, p, log, target)
    ensures var (q, events) := AfterRead(p, t, Ok(0), Ok(()), stream); Claims(d, q, log + events, target)
  {
    hide Follows, Faithful, Heard;
    assert log + [] == log;
    QuietIsFaithful(d.session.chain, d.session.chain.history, d.session.writes, log, ReadFailed(t.read), target);
  }

  lemma ClaimsAnyDevice(d: Deck, lost: bool, decode: seq<real>, p: Playback, q: Playback, log: seq<Event>,
                        target: Target)
    requires Claims(d, p, log, target) && q.done == p.done && q.failure == p.failure
    ensures Claims(WithDevice(d, lost), q, log, target) && Claims(d.(decode := decode), q, log, target)
  {
  }

  /** One turn keeps every claim. */
  lemma TurnClaims(d: Deck, p: Playback, log: seq<Event>, t: Turn, stream: Stream, around: Around)
    requires Rigged(d, stream) && Plain(d) && Honest(t, stream) && !around.discard
    requires !p.done && p.failure.None? && Claims(d, p, log, around.target)
    ensures var (u, a) := TurnDeck(d, p, t, stream, around);
            var (q, events) := Turned(p, t, a, stream);
            Claims(u, q, log + events, around.target)
  {
    assert d.session.Agrees() && stream.Valid();
    hide Rigged, Claims, Plain, Honest, Reconnected, AfterDevice, AfterSeeks, AfterRead, BlockDeck, Follows, Turned;
    var lost := LostIn(d.session.lost, t);
    var d0 := WithDevice(d, lost);
    var (u0, a) := TurnBody(d0, p, t, stream, around);
    DeviceKeeps(d, lost, stream);
    ClaimsAnyDevice(d, lost, d.decode, p, p, log, around.target);
    BodyClaims(d0, p, log, t, stream, around);
    var (q, events) := Turned(p, t, a, stream);
    ClaimsAnyDevice(u0, lost || t.lostMeanwhile, u0.decode, q, q, log + events, around.target);
  }

  lemma BodyClaims(d: Deck, p: Playback, log: seq<Event>, t: Turn, stream: Stream, around: Around)
    requires Rigged(d, stream) && Plain(d) && Honest(t, stream) && !around.discard
    requires !p.done && p.failure.None? && Claims(d, p, log, around.target)
    ensures var (u, a) := TurnBody(d, p, t, stream, around);
            var (q, events) := Turned(p, t, a, stream);
            Claims(u, q, log + events, around.target)
  {
    assert d.session.Agrees() && stream.Valid();
    hide Rigged, Claims, Honest, Plain, DeviceDeck, PlayDeck, AfterDevice;
    assert log + [] == log;
    if t.cancelled {
      ClaimsCancelled(d, p, log, around.target);
    } else {
      DeviceClaims(d, p, log, t, stream, around);
      var (d1, rebound) := DeviceDeck(d, t, stream, around);
      DeviceDelivers(p, t, rebound, stream);
      DeviceDeckPlain(d, t, stream, around);
      RestClaims(d1, rebound, p, log, t, stream, around);
    }
  }

  /** Where the device phase leaves the playback, with the owner's control applied. */
  function AfterControl(p: Playback, t: Turn, rebound: Result<(), OutputError>, stream: Stream): Playback {
    var device := AfterDevice(p, t, rebound, stream).0;
    if !device.done && t.control.Some? then device.(status := t.control.value) else device
  }

  /** After the device phase: stop there, pause, or play. */
  lemma RestClaims(d: Deck, rebound: Result<(), OutputError>, p: Playback, log: seq<Event>, t: Turn, stream: Stream,
                   around: Around)
    requires Rigged(d, stream) && Plain(d) && Honest(t, stream) && !around.discard
    requires !p.done && p.failure.None? && !t.cancelled
    requires var (device, e1) := AfterDevice(p, t, rebound, stream);
             Claims(d, device, log + e1, around.target) && (!device.done ==> device.failure == p.failure)
    ensures var (u, a) := PlayDeck(d, rebound, p, t, stream, around);
            var (q, events) := Turned(p, t, a, stream);
            Claims(u, q, log + events, around.target)
  {
    assert d.session.Agrees() && stream.Valid();
    assert PlayDeck(d, rebound, p, t, stream, around).1.rebound == rebound;
    Controlled(d, rebound, p, log, t, stream, around.target);
    StoppedTurn(d, rebound, p, t, stream, around);
    hide *;
    var (device, e1) := AfterDevice(p, t, rebound, stream);
    var q := AfterControl(p, t, rebound, stream);
    if Plays(p, t, rebound, stream) {
      PlayClaims(d, q, log + e1, t, stream, around);
      PlayedTurn(d, rebound, p, t, stream, around);
      var (sought, e2) := AfterSeeks(q, t.seeks, stream);
      var (u, submitted, reboundAfter) := ReadDeck(d, t, stream, around);
      var (r, e3) := AfterRead(sought, t, submitted, reboundAfter, stream);
      Associative(log, e1, e2 + e3);
    }
  }

  lemma Controlled(d: Deck, rebound: Result<(), OutputError>, p: Playback, log: seq<Event>, t: Turn, stream: Stream,
                   target: Target)
    requires !p.done && p.failure.None?
    requires var (device, e1) := AfterDevice(p, t, rebound, stream);
             Claims(d, device, log + e1, target) && (!device.done ==> device.failure == p.failure)
    ensures var q := AfterControl(p, t, rebound, stream);
            && Claims(d, q, log + AfterDevice(p, t, rebound, stream).1, target)
            && (Plays(p, t, rebound, stream) ==> !q.done && q.failure.None?)
  {
    hide Faithful, Follows, AfterDevice;
  }

  lemma StoppedTurn(d: Deck, rebound: Result<(), OutputError>, p: Playback, t: Turn, stream: Stream, around: Around)
    requires d.session.Agrees() && stream.Valid() && !p.done && !t.cancelled
    ensures !Plays(p, t, rebound, stream) ==>
              var (u, a) := PlayDeck(d, rebound, p, t, stream, around);
              u == d
              && Turned(p, t, a, stream) == (AfterControl(p, t, rebound, stream), AfterDevice(p, t, rebound, stream).1)
  {
    hide AfterDevice, ReadDeck, AfterSeeks, AfterRead;
  }

  lemma PlayedTurn(d: Deck, rebound: Result<(), OutputError>, p: Playback, t: Turn, stream: Stream, around: Around)
    requires d.session.Agrees() && stream.Valid() && Plays(p, t, rebound, stream)
    ensures var (u, submitted, reboundAfter) := ReadDeck(d, t, stream, around);
            var (sought, e2) := AfterSeeks(AfterControl(p, t, rebound, stream), t.seeks, stream);
            var (r, e3) := AfterRead(sought, t, submitted, reboundAfter, stream);
            && PlayDeck(d, rebound, p, t, stream, around) == (u, Answer(rebound, submitted, reboundAfter))
            && Turned(p, t, Answer(rebound, submitted, reboundAfter), stream)
               == (r, AfterDevice(p, t, rebound, stream).1 + (e2 + e3))
  {
    hide AfterDevice, ReadDeck, AfterSeeks, AfterRead;
    var (u, submitted, reboundAfter) := ReadDeck(d, t, stream, around);
    TurnSplit(p, t, Answer(rebound, submitted, reboundAfter), stream);
  }

  lemma DeviceDeckPlain(d: Deck, t: Turn, stream: Stream, around: Around)
    requires Rigged(d, stream) && Plain(d)
    ensures Rigged(DeviceDeck(d, t, stream, around).0, stream) && Plain(DeviceDeck(d, t, stream, around).0)
  {
    hide Reconnected, Rigged;
    ReconnectedKeeps(d, t.snapshot, stream, around);
  }

  lemma ClaimsCancelled(d: Deck, p: Playback, log: seq<Event>, target: Target)
    requires Claims(d, p, log, target)
    ensures Claims(d, p.(done := true), log, target)
  {
  }

  /** Seeks, then one read. */
  lemma PlayClaims(d: Deck, p: Playback, log: seq<Event>, t: Turn, stream: Stream, around: Around)
    requires Rigged(d, stream) && Plain(d) && Honest(t, stream) && !around.discard
    requires !p.done && p.failure.None? && Claims(d, p, log, around.target)
    ensures var (sought, e2) := AfterSeeks(p, t.seeks, stream);
            var (u, submitted, rebound) := ReadDeck(d, t, stream, around);
            var (q, e3) := AfterRead(sought, t, submitted, rebound, stream);
            Claims(u, q, log + (e2 + e3), around.target)
  {
    assert d.session.Agrees() && stream.Valid();
    hide *;
    var (sought, e2) := AfterSeeks(p, t.seeks, stream);
    SeeksClaims(d, p, log, t.seeks, stream, around.target);
    ReadDeckClaims(d, sought, log + e2, t, stream, around);
    var (u, submitted, rebound) := ReadDeck(d, t, stream, around);
    Associative(log, e2, AfterRead(sought, t, submitted, rebound, stream).1);
  }

  lemma ReadDeckClaims(d: Deck, p: Playback, log: seq<Event>, t: Turn, stream: Stream, around: Around)
    requires Rigged(d, stream) && Plain(d) && Honest(t, stream) && !around.discard
    requires !p.done && p.failure.None? && Claims(d, p, log, around.target)
    ensures var (u, submitted, rebound) := ReadDeck(d, t, stream, around);
            var (q, events) := AfterRead(p, t, submitted, rebound, stream);
            Claims(u, q, log + events, around.target)
  {
    assert d.session.Agrees() && stream.Valid();
    hide Rigged, Claims, Honest, Plain, AfterRead, BlockDeck;
    var d2 := d.(decode := ReadInto(d.decode, t));
    ClaimsAnyDevice(d, false, ReadInto(d.decode, t), p, p, log, around.target);
    ReadKeeps(d, t, stream);
    SamePlain(d, d2);
    if t.read > 0 {
      BlockClaims(d2, p, log, t, stream, around);
    } else {
      ReadClaims(d2, p, log, t, stream, around.target);
    }
  }

  lemma SamePlain(d: Deck, u: Deck)
    requires Plain(d) && SameSource(d, u)
    ensures Plain(u)
  {
  }

  /** The events of a turn that plays, bracketed as the phases produce them. */
  lemma TurnSplit(p: Playback, t: Turn, a: Answer, stream: Stream)
    requires stream.Valid() && !p.done && !t.cancelled
    ensures var (device, e1) := AfterDevice(p, t, a.rebound, stream);
            var q := if t.control.Some? then device.(status := t.control.value) else device;
            !device.done && q.status != Paused ==>
              var (sought, e2) := AfterSeeks(q, t.seeks, stream);
              var (r, e3) := AfterRead(sought, t, a.submitted, a.reboundAfter, stream);
              Turned(p, t, a, stream) == (r, e1 + (e2 + e3))
  {
    hide AfterDevice, AfterSeeks, AfterRead;
    var (device, e1) := AfterDevice(p, t, a.rebound, stream);
    var q := if t.control.Some? then device.(status := t.control.value) else device;
    var (sought, e2) := AfterSeeks(q, t.seeks, stream);
    var (r, e3) := AfterRead(sought, t, a.submitted, a.reboundAfter, stream);
    assert e1 + e2 + e3 == e1 + (e2 + e3);
  }


  // --------------------------------------------------------------- whole runs

  /** The run keeps the workspace fit for the formats then in force, through every
      rebind; the device is as the script says. */
  lemma {:induction false} RunKeeps(d: Deck, turns: seq<Turn>, stream: Stream, around: Around)
    requires Rigged(d, stream)
    ensures var u := Perform(d, turns, stream, around).0;
            && Rigged(u, stream) && SameSource(d, u) && u.session.lost == LostAfter(d.session.lost, turns)
            && d.session.writes <= u.session.writes
    decreases |turns|
  {
    assert d.session.Agrees() && stream.Valid();
    hide Rigged, TurnDeck, Turned;
    if |turns| > 0 {
      var n := |turns| - 1;
      RunKeeps(d, turns[..n], stream, around);
      var (before, answers) := Perform(d, turns[..n], stream, around);
      TurnKeeps(before, Run(turns[..n], answers, stream).0, turns[n], stream, around);
    }
  }

  lemma {:induction false} AnswersSoFar(d: Deck, turns: seq<Turn>, stream: Stream, around: Around, k: nat)
    requires d.session.Agrees() && stream.Valid() && k < |turns|
    ensures var (before, answers) := Perform(d, turns[..k], stream, around);
            && Perform(d, turns, stream, around).1[..k] == answers
            && Perform(d, turns, stream, around).1[k]
               == TurnDeck(before, Run(turns[..k], answers, stream).0, turns[k], stream, around).1
    decreases |turns|
  {
    hide TurnDeck, Turned;
    var n := |turns| - 1;
    var all := Perform(d, turns, stream, around).1;
    assert all[..n] == Perform(d, turns[..n], stream, around).1;
    if k < n {
      AnswersSoFar(d, turns[..n], stream, around, k);
      assert turns[..n][..k] == turns[..k] && all[..n][..k] == all[..k];
    }
  }

  /** Every answer in a run, from the script: rebinds answer as replanning against the
      binder does, and with preserving filters an honest read that is reached is
      delivered exactly when the device is there, before and during the write. */
  lemma AnswersExactly(d: Deck, turns: seq<Turn>, stream: Stream, around: Around, k: nat)
    requires Rigged(d, stream) && k < |turns|
    ensures var answers := Perform(d, turns, stream, around).1;
            var p := Run(turns[..k], answers[..k], stream).0;
            var lost := LostIn(LostAfter(d.session.lost, turns[..k]), turns[k]);
            && AnswersRightly(answers[k], p, turns[k], d.session.chain.decodeSpec, lost, stream, around)
            && (Plays(p, turns[k], answers[k].rebound, stream) && turns[k].read > 0
                && Preserving(d.session.chain.filters) && Honest(turns[k], stream) ==>
                  && (answers[k].submitted.Ok? <==> !lost && !turns[k].lostMeanwhile)
                  && (answers[k].submitted.Err? ==> answers[k].submitted == Err(Lost)))
  {
    assert d.session.Agrees() && stream.Valid();
    AnswersSoFar(d, turns, stream, around, k);
    var (before, answers) := Perform(d, turns[..k], stream, around);
    var p := Run(turns[..k], answers, stream).0;
    RunKeeps(d, turns[..k], stream, around);
    hide Rigged, TurnDeck, Turned, Preserving, Honest, AnswersRightly, Plays, LostIn, LostAfter;
    TurnKeeps(before, p, turns[k], stream, around);
    var a := TurnDeck(before, p, turns[k], stream, around).1;
    if Plays(p, turns[k], a.rebound, stream) && turns[k].read > 0
       && Preserving(d.session.chain.filters) && Honest(turns[k], stream) {
      TurnSubmits(before, p, turns[k], stream, around);
    }
  }

  /** Each delivery is one block written. */
  lemma BlockDelivers(d: Deck, p: Playback, t: Turn, stream: Stream, around: Around)
    requires Rigged(d, stream) && !around.discard && !p.done
    ensures var (u, submitted, rebound) := ReadDeck(d, t, stream, around);
            |u.session.writes| == |d.session.writes| + Deliveries(AfterRead(p, t, submitted, rebound, stream).1)
  {
    hide Rigged, BlockDeck, BlockOf, Frames, Milliseconds;
    ReadKeeps(d, t, stream);
    if t.read > 0 {
      BlockKeeps(d.(decode := ReadInto(d.decode, t)), t, stream, around);
    }
  }

  lemma PlayDelivers(d: Deck, rebound: Result<(), OutputError>, p: Playback, t: Turn, stream: Stream, around: Around)
    requires Rigged(d, stream) && !around.discard && !p.done && !t.cancelled
    ensures var (u, a) := PlayDeck(d, rebound, p, t, stream, around);
            |u.session.writes| == |d.session.writes| + Deliveries(Turned(p, t, a, stream).1)
  {
    assert d.session.Agrees() && stream.Valid();
    StoppedTurn(d, rebound, p, t, stream, around);
    DeviceDelivers(p, t, rebound, stream);
    if Plays(p, t, rebound, stream) {
      var q := AfterControl(p, t, rebound, stream);
      assert !AfterSeeks(q, t.seeks, stream).0.done;
      hide *;
      PlayedTurn(d, rebound, p, t, stream, around);
      SeeksDeliverNothing(q, t.seeks, stream);
      var (sought, e2) := AfterSeeks(q, t.seeks, stream);
      BlockDelivers(d, sought, t, stream, around);
      var (u, submitted, reboundAfter) := ReadDeck(d, t, stream, around);
      var e1, e3 := AfterDevice(p, t, rebound, stream).1, AfterRead(sought, t, submitted, reboundAfter, stream).1;
      DeliveriesAdd(e2, e3);
      DeliveriesAdd(e1, e2 + e3);
    }
  }

  lemma TurnDelivers(d: Deck, p: Playback, t: Turn, stream: Stream, around: Around)
    requires Rigged(d, stream) && !around.discard && !p.done
    ensures var (u, a) := TurnDeck(d, p, t, stream, around);
            |u.session.writes| == |d.session.writes| + Deliveries(Turned(p, t, a, stream).1)
  {
    assert d.session.Agrees() && stream.Valid();
    hide Rigged, ReadDeck, PlayDeck, Turned, Reconnected;
    var d0 := WithDevice(d, LostIn(d.session.lost, t));
    DeviceKeeps(d, LostIn(d.session.lost, t), stream);
    CancelledTurn(p, t, TurnBody(d0, p, t, stream, around).1, stream);
    if !t.cancelled {
      ReconnectedKeeps(d0, t.snapshot, stream, around);
      var (d1, rebound) := DeviceDeck(d0, t, stream, around);
      PlayDelivers(d1, rebound, p, t, stream, around);
    }
  }

  lemma CancelledTurn(p: Playback, t: Turn, a: Answer, stream: Stream)
    requires stream.Valid()
    ensures t.cancelled && !p.done ==> Turned(p, t, a, stream) == (p.(done := true), [])
  {
  }

  /** The writes are as many as the deliveries in the log. */
  lemma {:induction false} RunDeliveries(d: Deck, turns: seq<Turn>, stream: Stream, around: Around)
    requires Rigged(d, stream) && !around.discard
    ensures var (u, answers) := Perform(d, turns, stream, around);
            |u.session.writes| == |d.session.writes| + Deliveries(Run(turns, answers, stream).1)
    decreases |turns|
  {
    assert d.session.Agrees() && stream.Valid();
    hide Rigged, TurnDeck, Turned;
    if |turns| > 0 {
      var n := |turns| - 1;
      var (before, answers) := Perform(d, turns[..n], stream, around);
      var all := Perform(d, turns, stream, around).1;
      assert all[..n] == answers;
      var (p, log) := Run(turns[..n], answers, stream);
      RunDeliveries(d, turns[..n], stream, around);
      RunKeeps(d, turns[..n], stream, around);
      DeliveriesAdd(log, Turned(p, turns[n], all[n], stream).1);
      if p.done {
        DoneTurn(before, p, turns[n], all[n], stream, around);
      } else {
        TurnDelivers(before, p, turns[n], stream, around);
      }
    }
  }

  /** Nothing happens after the end but to the device. */
  lemma DoneTurn(d: Deck, p: Playback, t: Turn, a: Answer, stream: Stream, around: Around)
    requires d.session.Agrees() && stream.Valid() && p.done
    ensures Turned(p, t, a, stream) == (p, [])
    ensures TurnDeck(d, p, t, stream, around).0 == WithDevice(d, LostIn(d.session.lost, t) || t.lostMeanwhile)
  {
  }

  lemma StartClaims(d: Deck, target: Target)
    requires CodecFed(d.session.chain) && d.session.chain.history == State(0, Silence(), false)
    ensures Claims(d, Started, [], target)
  {
    assert d.session.writes[|d.session.writes| - 0..] == [];
  }

  lemma {:induction false} RunClaims(d: Deck, turns: seq<Turn>, stream: Stream, around: Around)
    requires Rigged(d, stream) && Plain(d) && !around.discard && d.session.chain.history == State(0, Silence(), false)
    requires forall t | t in turns :: Honest(t, stream)
    ensures var (u, answers) := Perform(d, turns, stream, around);
            var (p, log) := Run(turns, answers, stream);
            Claims(u, p, log, around.target)
    decreases |turns|
  {
    assert d.session.Agrees() && stream.Valid();
    if |turns| == 0 {
      StartClaims(d, around.target);
    } else {
      hide Rigged, TurnDeck, Turned, Claims, Plain, Honest;
      var n := |turns| - 1;
      var (before, answers) := Perform(d, turns[..n], stream, around);
      var all := Perform(d, turns, stream, around).1;
      assert all[..n] == answers;
      var (p, log) := Run(turns[..n], answers, stream);
      RunClaims(d, turns[..n], stream, around);
      RunKeeps(d, turns[..n], stream, around);
      RunAccounted(turns[..n], answers, stream);
      SamePlain(d, before);
      if p.done {
        DoneTurn(before, p, turns[n], all[n], stream, around);
        ClaimsAnyDevice(before, LostIn(before.session.lost, turns[n]) || turns[n].lostMeanwhile, before.decode, p, p,
                        log, around.target);
        assert log + [] == log;
      } else {
        TurnClaims(before, p, log, turns[n], stream, around);
      }
    }
  }

  /** Main theorem of the loop, at every point of every run with plain filters and an
      honest codec. The bytes written since the last rebind are the conversion, as one
      stream, of the samples delivered since then, whatever the read sizes; each
      delivery is one block; and a submission fails the run only when the device is
      lost and reconnecting is off. */
  lemma RunIsFaithful(d: Deck, turns: seq<Turn>, stream: Stream, around: Around)
    requires Rigged(d, stream) && Plain(d) && !around.discard && d.session.chain.history == State(0, Silence(), false)
    requires forall t | t in turns :: Honest(t, stream)
    ensures var (u, answers) := Perform(d, turns, stream, around);
            var (p, log) := Run(turns, answers, stream);
            && Faithful(u.session.chain, u.session.writes, log, around.target)
            && d.session.writes <= u.session.writes
            && |u.session.writes| == |d.session.writes| + Deliveries(log)
            && (p.failure.Some? && p.failure.value.OutputFailed? ==>
                  p.failure.value.error == Lost && !stream.autoReconnect)
  {
    var answers := Perform(d, turns, stream, around).1;
    RunAccounted(turns, answers, stream);
    hide Rigged, Plain, Perform, Run, Faithful;
    RunClaims(d, turns, stream, around);
    RunDeliveries(d, turns, stream, around);
    RunKeeps(d, turns, stream, around);
  }
}

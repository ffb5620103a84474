/** The synchronous decode loop driving an output session:
    crates/around-engine/src/pipeline.rs:398-580. */
module DecodeLoop {
  import opened Arith
  import opened Pcm
  import opened FilterChain
  import opened OutputPlan
  import opened OutputSession
  import opened DecodeScript
  import opened DecodeRun

  /** The session and its workspace, as a value. */
  ghost function DeckOf(session: OutputSession, w: PcmBuffer): Deck
    requires session.chain.Valid()
    reads session, session.chain, session.chain.previousFrame, session.binding, session.adapter, w.decode, w.filter
  {
    Deck(session.Value(), w.decode[..], RegionsOf(w))
  }

  /** A valid session with a workspace that shares nothing with its resampler history. */
  ghost predicate Ready(session: OutputSession, w: PcmBuffer)
    reads session, session.chain, session.chain.previousFrame, w
  {
    && session.Valid() && w.Valid()
    && w.decode != session.chain.previousFrame && w.filter != session.chain.previousFrame
    && w.scratch != session.chain.previousFrame
  }

  /** The same workspace, or a newly allocated one. */
  twostate predicate SameOrNew(w: PcmBuffer, new resized: PcmBuffer) {
    resized == w || (fresh(resized) && fresh(resized.decode) && fresh(resized.filter) && fresh(resized.scratch)
                     && fresh(resized.output))
  }

  /** The loop's allocation: as large as workspace_requirements asks for 4096 frames. */
  method SizeWorkspace(session: OutputSession) returns (w: PcmBuffer)
    requires session.Valid()
    ensures fresh(w) && fresh(w.decode) && fresh(w.filter) && fresh(w.scratch) && fresh(w.output)
    ensures Ready(session, w) && DeckOf(session, w) == Rig(session.Value())
  {
    var maxSamples := READ_FRAMES * session.chain.decodeSpec.channels;
    var processing, bytes := session.chain.WorkspaceRequirements(maxSamples);
    w := new PcmBuffer.WithProcessingCapacity(maxSamples, processing, bytes);
  }

  method ReadCodec(t: Turn, decode: array<real>)
    modifies decode
    ensures decode[..] == ReadInto(old(decode[..]), t)
  {
    var n := Min(|t.samples|, decode.Length);
    for i := 0 to n
      invariant decode[..i] == t.samples[..i] && decode[n..] == old(decode[n..])
    {
      decode[i] := t.samples[i];
    }
    assert decode[..] == decode[..n] + decode[n..];
  }

  /** rebind, and on success a workspace sized for the new format. */
  method Reconnect(session: OutputSession, w: PcmBuffer, snapshot: Option<Snapshot>)
    returns (r: Result<(), OutputError>, resized: PcmBuffer)
    requires Ready(session, w)
    modifies session, session.binding, session.chain, session.chain.previousFrame
    ensures Ready(session, resized) && SameOrNew(w, resized)
    ensures (DeckOf(session, resized), r) == Reconnected(old(DeckOf(session, w)), snapshot, session.Surroundings())
    ensures r.Err? ==> session.binding == old(session.binding) && resized == w
    ensures r.Ok? ==> fresh(session.binding) && !session.binding.closed && old(session.binding).closed
  {
    hide Rig, Replanned;
    r := session.Rebind(snapshot);
    resized := w;
    if r.Ok? {
      resized := SizeWorkspace(session);
    }
  }

  method DevicePhase(session: OutputSession, w: PcmBuffer, p: Playback, t: Turn, stream: Stream)
    returns (q: Playback, events: seq<Event>, ghost rebound: Result<(), OutputError>, resized: PcmBuffer)
    requires Ready(session, w) && !p.done
    modifies session, session.binding, session.chain, session.chain.previousFrame
    ensures Ready(session, resized) && SameOrNew(w, resized)
    ensures session.binding == old(session.binding) || fresh(session.binding)
    ensures (DeckOf(session, resized), rebound)
         == DeviceDeck(old(DeckOf(session, w)), t, stream, session.Surroundings())
    ensures (q, events) == AfterDevice(p, t, rebound, stream)
  {
    hide Reconnected;
    q, events, rebound, resized := p, [], Ok(()), w;
    if t.deviceLost {
      q := q.(deviceLost := true);
      if stream.autoReconnect {
        var r;
        r, resized := Reconnect(session, w, t.snapshot);
        rebound := r;
        if r.Err? {
          q := q.(status := Error, failure := Some(RebindFailed(r.error)), done := true);
        } else {
          q := q.(deviceLost := false);
          events := [Rebound];
        }
      } else {
        q := q.(status := Error, done := true);
      }
    }
  }

  method SeekPhase(p: Playback, t: Turn, stream: Stream) returns (q: Playback, events: seq<Event>)
    requires stream.Valid()
    ensures (q, events) == AfterSeeks(p, t.seeks, stream)
  {
    hide Milliseconds, RequestedFrame;
    q, events := p, [];
    for i := 0 to |t.seeks|
      invariant (q, events) == AfterSeeks(p, t.seeks[..i], stream)
    {
      assert t.seeks[..i + 1][..i] == t.seeks[..i];
      var seek := t.seeks[i];
      var requested := RequestedFrame(seek.positionMs, stream.rate);
      if seek.answer >= 0 {
        q := q.(frames := seek.answer, positionMs := Milliseconds(seek.answer, stream.rate), status := Playing);
        events := events + [Sought(requested, seek.answer)];
      } else {
        events := events + [SeekRefused(requested)];
      }
    }
    assert t.seeks[..|t.seeks|] == t.seeks;
  }

  /** A positive read: submit it, and reconnect a lost device if configured. */
  method BlockPhase(session: OutputSession, w: PcmBuffer, p: Playback, t: Turn, stream: Stream)
    returns (q: Playback, events: seq<Event>, ghost submitted: Result<nat, OutputError>,
             ghost rebound: Result<(), OutputError>, resized: PcmBuffer)
    requires Ready(session, w) && !p.done && t.read > 0 && stream.Valid()
    modifies session, session.binding, session.chain, session.chain.previousFrame, session.adapter
    modifies w.filter, w.scratch, w.output
    ensures Ready(session, resized) && SameOrNew(w, resized)
    ensures session.binding == old(session.binding) || fresh(session.binding)
    ensures (DeckOf(session, resized), submitted, rebound)
         == BlockDeck(old(DeckOf(session, w)), t, stream, session.Surroundings())
    ensures (q, events) == AfterRead(p, t, submitted, rebound, stream)
  {
    hide FromWorkspace, Reconnected, Milliseconds, BlockOf;
    q, events, rebound, resized := p, [], Ok(()), w;
    var r := session.SubmitWorkspace(w, t.read / stream.channels, t.lostMeanwhile);
    submitted := r;
    if r.Ok? {
      var frames := q.frames + Frames(t, stream);
      q := q.(frames := frames, errors := 0, positionMs := Milliseconds(frames, stream.rate));
      events := [Delivered(BlockOf(t, stream), Frames(t, stream))];
    } else if r.error == Lost && stream.autoReconnect {
      var again;
      again, resized := Reconnect(session, w, t.snapshotAfter);
      rebound := again;
      if again.Err? {
        q, events := q.(status := Error, failure := Some(RebindFailed(again.error)), done := true), [Skipped];
      } else {
        q, events := q.(status := Playing), [Skipped, Rebound];
      }
    } else {
      q, events := q.(status := Error, failure := Some(OutputFailed(r.error)), done := true), [Skipped];
    }
  }

  method ReadPhase(session: OutputSession, w: PcmBuffer, p: Playback, t: Turn, stream: Stream)
    returns (q: Playback, events: seq<Event>, ghost submitted: Result<nat, OutputError>,
             ghost rebound: Result<(), OutputError>, resized: PcmBuffer)
    requires Ready(session, w) && !p.done && stream.Valid()
    modifies session, session.binding, session.chain, session.chain.previousFrame, session.adapter
    modifies w.decode, w.filter, w.scratch, w.output
    ensures Ready(session, resized) && SameOrNew(w, resized)
    ensures session.binding == old(session.binding) || fresh(session.binding)
    ensures (DeckOf(session, resized), submitted, rebound)
         == ReadDeck(old(DeckOf(session, w)), t, stream, session.Surroundings())
    ensures (q, events) == AfterRead(p, t, submitted, rebound, stream)
  {
    hide BlockDeck, ReadInto, BlockOf, Milliseconds;
    q, events, submitted, rebound, resized := p, [], Ok(0), Ok(()), w;
    ReadCodec(t, w.decode);
    if t.read > 0 {
      q, events, submitted, rebound, resized := BlockPhase(session, w, p, t, stream);
    } else if t.read == 0 {
      q := q.(done := true);
    } else {
      events := [ReadFailed(t.read)];
      q := q.(errors := q.errors + 1);
      if q.errors >= 3 {
        q := q.(status := Error, failure := Some(DecodeFailed(t.read)), done := true);
      }
    }
  }

  /** The loop's body. */
  method PlayTurn(session: OutputSession, w: PcmBuffer, p: Playback, t: Turn, stream: Stream)
    returns (q: Playback, events: seq<Event>, ghost answer: Answer, resized: PcmBuffer)
    requires Ready(session, w) && !p.done && stream.Valid()
    modifies session, session.binding, session.chain, session.chain.previousFrame, session.adapter
    modifies w.decode, w.filter, w.scratch, w.output
    ensures Ready(session, resized) && SameOrNew(w, resized)
    ensures session.binding == old(session.binding) || fresh(session.binding)
    ensures (DeckOf(session, resized), answer)
         == TurnBody(old(DeckOf(session, w)), p, t, stream, session.Surroundings())
    ensures (q, events) == Turned(p, t, answer, stream)
  {
    hide DeviceDeck, ReadDeck, AfterDevice, AfterSeeks, AfterRead;
    if t.cancelled {
      return p.(done := true), [], Idle, w;
    }
    ghost var rebound;
    q, events, rebound, resized := DevicePhase(session, w, p, t, stream);
    answer := Idle.(rebound := rebound);
    if q.done {
      return;
    }
    if t.control.Some? {
      q := q.(status := t.control.value);
    }
    if q.status == Paused {
      return;
    }
    var sought, read;
    ghost var submitted, reboundAfter;
    q, sought := SeekPhase(q, t, stream);
    q, read, submitted, reboundAfter, resized := ReadPhase(session, resized, q, t, stream);
    answer := Answer(rebound, submitted, reboundAfter);
    events := events + sought + read;
  }

  /** Within the body only a loss during the write changes the device. */
  lemma BodyDevice(d: Deck, p: Playback, t: Turn, stream: Stream, around: Around)
    requires d.session.Agrees() && stream.Valid()
    ensures (TurnBody(d, p, t, stream, around).0.session.lost || t.lostMeanwhile) == (d.session.lost || t.lostMeanwhile)
  {
    hide AfterDevice, Replanned, Chain.Process, Chain.Region;
  }

  /** One turn of the loop, with what other threads do to the device meanwhile. */
  method TurnOnce(session: OutputSession, w: PcmBuffer, p: Playback, t: Turn, stream: Stream)
    returns (q: Playback, events: seq<Event>, ghost answer: Answer, resized: PcmBuffer)
    requires Ready(session, w) && !p.done && stream.Valid()
    modifies session, session.binding, session.chain, session.chain.previousFrame, session.adapter
    modifies w.decode, w.filter, w.scratch, w.output
    ensures Ready(session, resized) && SameOrNew(w, resized)
    ensures session.binding == old(session.binding) || fresh(session.binding)
    ensures (DeckOf(session, resized), answer)
         == TurnDeck(old(DeckOf(session, w)), p, t, stream, session.Surroundings())
    ensures (q, events) == Turned(p, t, answer, stream)
  {
    hide TurnBody, Turned;
    if t.lost.Some? {
      session.adapter.SetLost(t.lost.value);
    }
    assert DeckOf(session, w) == WithDevice(old(DeckOf(session, w)), LostIn(old(session.adapter.lost), t));
    BodyDevice(DeckOf(session, w), p, t, stream, session.Surroundings());
    q, events, answer, resized := PlayTurn(session, w, p, t, stream);
    if t.lostMeanwhile {
      session.adapter.SetLost(true);
    }
  }

  /** run_stream_with_session, up to the exit or the end of the script: playback, log
      and session are those of the script. What that means for the device is stated
      about Perform and Run. */
  method RunStream(session: OutputSession, stream: Stream, turns: seq<Turn>)
    returns (p: Playback, log: seq<Event>, ghost used: nat)
    requires session.Valid() && stream.Valid()
    modifies session, session.binding, session.chain, session.chain.previousFrame, session.adapter
    ensures session.Valid() && used <= |turns|
    ensures var (end, answers) := Perform(Rig(old(session.Value())), turns[..used], stream, session.Surroundings());
            var (q, events) := Run(turns[..used], answers, stream);
            && session.Value() == end.session && log == events
            && p == (if q.done then Finished(q) else q) && (used < |turns| ==> q.done)
  {
    hide TurnDeck, Turned, Rig;
    ghost var start, around := Rig(session.Value()), session.Surroundings();
    var w := SizeWorkspace(session);
    p, log, used := Started, [], 0;
    var i := 0;
    while i < |turns| && !p.done
      invariant i == used <= |turns| && Ready(session, w)
      invariant session.binding == old(session.binding) || fresh(session.binding)
      invariant fresh(w) && fresh(w.decode) && fresh(w.filter) && fresh(w.scratch) && fresh(w.output)
      invariant var (now, answers) := Perform(start, turns[..i], stream, around);
                DeckOf(session, w) == now && (p, log) == Run(turns[..i], answers, stream)
      decreases |turns| - i
    {
      ghost var (now, answers) := Perform(start, turns[..i], stream, around);
      var q, events;
      ghost var answer;
      q, events, answer, w := TurnOnce(session, w, p, turns[i], stream);
      assert turns[..i + 1][..i] == turns[..i] && (answers + [answer])[..i] == answers;
      p, log := q, log + events;
      i := i + 1;
      used := i;
    }
    if p.done {
      p := Finished(p);
    }
  }
}

/** How each turn of the decode loop goes, and where the loop ends, from what the turn
    finds and the session answers: crates/around-engine/src/pipeline.rs:449-580. */
module DecodeEnds {
  import opened Pcm
  import opened OutputPlan
  import opened OutputSession
  import opened DecodeScript

  /** A lost device that is not reconnected. */
  predicate DeviceEnds(t: Turn, a: Answer, stream: Stream) {
    t.deviceLost && (!stream.autoReconnect || a.rebound.Err?)
  }

  predicate PausedIn(p: Playback, t: Turn) {
    if t.control.Some? then t.control == Some(Paused) else p.status == Paused
  }

  /** The turn gets as far as its seeks and its read. */
  predicate Reads(p: Playback, t: Turn, a: Answer, stream: Stream) {
    !p.done && !t.cancelled && !DeviceEnds(t, a, stream) && !PausedIn(p, t)
  }

  /** A read that ends the loop: the end of the stream, a block nobody took and no
      reconnection, or the third failure in a row. */
  predicate ReadEnds(p: Playback, t: Turn, a: Answer, stream: Stream) {
    || t.read == 0
    || (t.read > 0 && a.submitted.Err?
        && (a.submitted.error != Lost || !stream.autoReconnect || a.reboundAfter.Err?))
    || (t.read < 0 && p.errors >= 2)
  }

  /** Exactly when a turn is the last. */
  lemma {:induction false} EndsExactly(p: Playback, t: Turn, a: Answer, stream: Stream)
    requires stream.Valid() && !p.done
    ensures Turned(p, t, a, stream).0.done
            <==> t.cancelled || DeviceEnds(t, a, stream) || (!PausedIn(p, t) && ReadEnds(p, t, a, stream))
  {
    hide Milliseconds, RequestedFrame, AfterSeeks;
  }

  /** The failure a turn ends with, if any: a rebind's, the output's or the codec's. */
  lemma {:induction false} FailsExactly(p: Playback, t: Turn, a: Answer, stream: Stream)
    requires stream.Valid() && !p.done && p.failure.None?
    ensures var q := Turned(p, t, a, stream).0;
            && (t.cancelled ==> q.failure.None?)
            && (!t.cancelled && DeviceEnds(t, a, stream) ==>
                  q.failure == if stream.autoReconnect then Some(RebindFailed(a.rebound.error)) else None)
            && (Reads(p, t, a, stream) ==>
                  && (t.read == 0 ==> q.failure.None?)
                  && (t.read < 0 ==> q.failure == if p.errors >= 2 then Some(DecodeFailed(t.read)) else None)
                  && (t.read > 0 && a.submitted.Ok? ==> q.failure.None?)
                  && (t.read > 0 && a.submitted.Err? ==>
                        q.failure ==
                        if a.submitted.error != Lost || !stream.autoReconnect then Some(OutputFailed(a.submitted.error))
                        else if a.reboundAfter.Err? then Some(RebindFailed(a.reboundAfter.error))
                        else None))
  {
    hide Milliseconds, RequestedFrame, AfterSeeks;
  }

  /** What one seek of a turn logs. */
  predicate SeekLogged(e: Event, seek: Seek, stream: Stream)
    requires stream.Valid()
  {
    if seek.answer >= 0 then e == Sought(RequestedFrame(seek.positionMs, stream.rate), seek.answer)
    else e == SeekRefused(RequestedFrame(seek.positionMs, stream.rate))
  }

  /** Seeks are logged one by one. */
  lemma {:induction false} SeeksLogged(p: Playback, seeks: seq<Seek>, stream: Stream)
    requires stream.Valid()
    ensures |AfterSeeks(p, seeks, stream).1| == |seeks|
    ensures forall i | 0 <= i < |seeks| :: SeekLogged(AfterSeeks(p, seeks, stream).1[i], seeks[i], stream)
  {
    hide Milliseconds, RequestedFrame;
    if |seeks| > 0 {
      var n := |seeks| - 1;
      SeeksLogged(p, seeks[..n], stream);
      OneSeekLogged(p, seeks, stream);
      forall i | 0 <= i < n ensures SeekLogged(AfterSeeks(p, seeks, stream).1[i], seeks[i], stream) {
        assert seeks[..n][i] == seeks[i];
      }
    }
  }

  lemma OneSeekLogged(p: Playback, seeks: seq<Seek>, stream: Stream)
    requires stream.Valid() && |seeks| > 0
    ensures var before, after := AfterSeeks(p, seeks[..|seeks| - 1], stream).1, AfterSeeks(p, seeks, stream).1;
            && |after| == |before| + 1 && after[..|before|] == before
            && SeekLogged(after[|before|], seeks[|seeks| - 1], stream)
  {
  }

  /** The last seek that succeeds places the playback and resumes it; refused ones change
      nothing. */
  lemma {:induction false} SeeksLand(p: Playback, seeks: seq<Seek>, stream: Stream, k: nat)
    requires stream.Valid() && k <= |seeks| && forall i | k <= i < |seeks| :: seeks[i].answer < 0
    ensures var q := AfterSeeks(p, seeks, stream).0;
            && (k == 0 ==> q == p)
            && (k > 0 && seeks[k - 1].answer >= 0 ==> q.frames == seeks[k - 1].answer && q.status == Playing)
    decreases |seeks|
  {
    hide Milliseconds, RequestedFrame;
    if k < |seeks| {
      SeeksLand(p, seeks[..|seeks| - 1], stream, k);
    }
  }

  /** What the device phase logs. */
  predicate DeviceLogged(events: seq<Event>, t: Turn) {
    events == if t.deviceLost then [Rebound] else []
  }

  /** What a read logs: the delivered whole frames, a skipped block and perhaps the
      reconnection, a failure, or nothing at the end of the stream. */
  predicate ReadLogged(events: seq<Event>, t: Turn, a: Answer, stream: Stream)
    requires stream.Valid()
  {
    if t.read > 0 && a.submitted.Ok? then
      |events| == 1 && events[0].Delivered? && events[0].samples == BlockOf(t, stream)
      && events[0].frames * stream.channels <= t.read < (events[0].frames + 1) * stream.channels
    else if t.read > 0 then
      events == if a.submitted.error == Lost && stream.autoReconnect && a.reboundAfter.Ok? then [Skipped, Rebound]
                else [Skipped]
    else events == if t.read < 0 then [ReadFailed(t.read)] else []
  }

  lemma {:induction false} ReadLogs(p: Playback, t: Turn, a: Answer, stream: Stream)
    requires stream.Valid()
    ensures ReadLogged(AfterRead(p, t, a.submitted, a.reboundAfter, stream).1, t, a, stream)
  {
    hide Milliseconds, BlockOf;
    WholeFrames(t.read, stream.channels);
  }

  /** A turn that reads logs its reconnection, its seeks and its read, in this order; a
      paused one leaves seeks and reads for later; an ending one logs nothing. */
  lemma {:induction false} TurnLogged(p: Playback, t: Turn, a: Answer, stream: Stream)
    returns (e1: seq<Event>, e2: seq<Event>, e3: seq<Event>)
    requires stream.Valid() && !p.done
    ensures Turned(p, t, a, stream).1 == e1 + e2 + e3
    ensures t.cancelled || DeviceEnds(t, a, stream) ==> e1 + e2 + e3 == []
    ensures !t.cancelled && !DeviceEnds(t, a, stream) ==> DeviceLogged(e1, t)
    ensures PausedIn(p, t) ==> e2 + e3 == []
    ensures Reads(p, t, a, stream) ==>
              && |e2| == |t.seeks| && (forall i | 0 <= i < |t.seeks| :: SeekLogged(e2[i], t.seeks[i], stream))
              && ReadLogged(e3, t, a, stream)
  {
    hide Milliseconds, RequestedFrame, AfterSeeks, AfterRead, SeekLogged, ReadLogged;
    e1, e2, e3 := [], [], [];
    if !t.cancelled {
      e1 := AfterDevice(p, t, a.rebound, stream).1;
      if Reads(p, t, a, stream) {
        var device := AfterDevice(p, t, a.rebound, stream).0;
        var q := if t.control.Some? then device.(status := t.control.value) else device;
        var sought := AfterSeeks(q, t.seeks, stream).0;
        SeeksLogged(q, t.seeks, stream);
        ReadLogs(sought, t, a, stream);
        e2 := AfterSeeks(q, t.seeks, stream).1;
        e3 := AfterRead(sought, t, a.submitted, a.reboundAfter, stream).1;
      } else {
        assert e1 + e2 + e3 == e1;
      }
    }
  }

  lemma WholeFrames(read: int, channels: nat)
    requires 0 < channels
    ensures read > 0 ==> read / channels * channels <= read < (read / channels + 1) * channels
  {
    if read > 0 {
      assert read == read / channels * channels + read % channels;
      assert (read / channels + 1) * channels == read / channels * channels + channels;
    }
  }

  /** Any seek that succeeds resumes the playback. */
  lemma {:induction false} SeeksResume(p: Playback, seeks: seq<Seek>, stream: Stream)
    requires stream.Valid() && exists i :: 0 <= i < |seeks| && seeks[i].answer >= 0
    ensures AfterSeeks(p, seeks, stream).0.status == Playing
    decreases |seeks|
  {
    hide Milliseconds, RequestedFrame;
    var n := |seeks| - 1;
    if seeks[n].answer < 0 {
      var i :| 0 <= i < |seeks| && seeks[i].answer >= 0;
      assert seeks[..n][i] == seeks[i];
      SeeksResume(p, seeks[..n], stream);
    }
  }

  /** Where the owner's control and a seek meet, the seek has the last word. */
  lemma {:induction false} SeekAfterControl(p: Playback, t: Turn, a: Answer, stream: Stream)
    requires stream.Valid() && Reads(p, t, a, stream) && p.failure.None?
    requires exists i :: 0 <= i < |t.seeks| && t.seeks[i].answer >= 0
    ensures var q := Turned(p, t, a, stream).0; q.failure.None? ==> q.status == Playing
  {
    hide Milliseconds, RequestedFrame, AfterSeeks;
    var device := AfterDevice(p, t, a.rebound, stream).0;
    SeeksResume(if t.control.Some? then device.(status := t.control.value) else device, t.seeks, stream);
  }

  /** What a turn publishes: a lost device until it is reconnected, Error with every
      failure, and Playing once a block nobody took has been followed by a reconnection. */
  lemma {:induction false} TurnPublishes(p: Playback, t: Turn, a: Answer, stream: Stream)
    requires stream.Valid() && !p.done && p.failure.None?
    ensures var q := Turned(p, t, a, stream).0;
            && (t.cancelled || !t.deviceLost ==> q.deviceLost == p.deviceLost)
            && (!t.cancelled && t.deviceLost ==> q.deviceLost == DeviceEnds(t, a, stream))
            && (!t.cancelled && DeviceEnds(t, a, stream) ==> q.status == Error)
            && (q.failure.Some? ==> q.status == Error)
            && (t.cancelled ==> q.status == p.status)
            && (Reads(p, t, a, stream) && t.read > 0 && a.submitted == Err(Lost) && q.failure.None? ==>
                  q.status == Playing)
            && (Reads(p, t, a, stream) && t.seeks == [] && (t.read <= 0 || a.submitted.Ok?) && q.failure.None? ==>
                  q.status == if t.control.Some? then t.control.value else p.status)
  {
    hide Milliseconds, RequestedFrame;
  }

  /** A paused turn leaves the playback where it is. */
  lemma {:induction false} PausedStays(p: Playback, t: Turn, a: Answer, stream: Stream)
    requires stream.Valid() && !p.done && !t.cancelled && !DeviceEnds(t, a, stream) && PausedIn(p, t)
    ensures var q := Turned(p, t, a, stream).0;
            && q.status == Paused && !q.done
            && q.frames == p.frames && q.positionMs == p.positionMs && q.errors == p.errors
  {
  }

  /** After the last turn nothing happens any more. */
  lemma {:induction false} NothingAfterTheEnd(turns: seq<Turn>, answers: seq<Answer>, more: seq<Turn>,
                                              others: seq<Answer>, stream: Stream)
    requires stream.Valid() && |turns| == |answers| && |more| == |others| && Run(turns, answers, stream).0.done
    ensures Run(turns + more, answers + others, stream) == Run(turns, answers, stream)
    decreases |more|
  {
    hide Turned;
    if |more| == 0 {
      assert turns + more == turns && answers + others == answers;
    } else {
      var n := |more| - 1;
      assert (turns + more)[..|turns| + n] == turns + more[..n];
      assert (answers + others)[..|turns| + n] == answers + others[..n];
      NothingAfterTheEnd(turns, answers, more[..n], others[..n], stream);
      DoneTurns(Run(turns, answers, stream).0, more[n], others[n], stream);
      assert Run(turns, answers, stream).1 + [] == Run(turns, answers, stream).1;
    }
  }

  lemma DoneTurns(p: Playback, t: Turn, a: Answer, stream: Stream)
    requires stream.Valid() && p.done
    ensures Turned(p, t, a, stream) == (p, [])
  {
  }

  /** The end of the stream: a turn that reads and gets nothing is the last one of its
      run, reports no error, and leaves the stream stopped. */
  lemma {:induction false} EndOfStream(turns: seq<Turn>, answers: seq<Answer>, more: seq<Turn>,
                                       others: seq<Answer>, stream: Stream)
    requires stream.Valid() && |turns| == |answers| > 0 && |more| == |others|
    requires var n := |turns| - 1;
             Reads(Run(turns[..n], answers[..n], stream).0, turns[n], answers[n], stream) && turns[n].read == 0
    ensures var (p, log) := Run(turns + more, answers + others, stream);
            && p.done && p.failure.None? && Finished(p).status == Stopped && log == Run(turns, answers, stream).1
  {
    var n := |turns| - 1;
    var before := Run(turns[..n], answers[..n], stream).0;
    RunAccounted(turns[..n], answers[..n], stream);
    RunAccounted(turns, answers, stream);
    EndsExactly(before, turns[n], answers[n], stream);
    FailsExactly(before, turns[n], answers[n], stream);
    NothingAfterTheEnd(turns, answers, more, others, stream);
  }

  /** A cancelled run ends at once, without an event and without an error. */
  lemma {:induction false} CancelledAtOnce(turns: seq<Turn>, answers: seq<Answer>, more: seq<Turn>,
                                           others: seq<Answer>, stream: Stream)
    requires stream.Valid() && |turns| == |answers| > 0 && |more| == |others|
    requires var n := |turns| - 1; !Run(turns[..n], answers[..n], stream).0.done && turns[n].cancelled
    ensures var (p, log) := Run(turns + more, answers + others, stream);
            && p.done && p.failure.None? && Finished(p).status == Stopped
            && log == Run(turns[..|turns| - 1], answers[..|turns| - 1], stream).1
  {
    var n := |turns| - 1;
    RunAccounted(turns[..n], answers[..n], stream);
    NothingAfterTheEnd(turns, answers, more, others, stream);
  }

  // -------------------------------------------------------------- frames and time

  /** A position in milliseconds, rounded down. */
  lemma MillisecondsOf(frames: nat, rate: U32)
    requires 0 < rate
    ensures Milliseconds(frames, rate) * rate <= frames * 1000 < (Milliseconds(frames, rate) + 1) * rate
  {
    var ms := frames * 1000 / rate;
    assert frames * 1000 == ms * rate + frames * 1000 % rate;
    assert (ms + 1) * rate == ms * rate + rate;
  }

  /** The frame of a position, rounded down, where that has 64 bits. */
  lemma RequestedFrameOf(positionMs: U64, rate: U32)
    ensures var f := RequestedFrame(positionMs, rate);
            if positionMs * rate < 0x1_0000_0000_0000_0000 * 1000
            then f * 1000 <= positionMs * rate < (f + 1) * 1000
            else f == 0xFFFF_FFFF_FFFF_FFFF
  {
  }

  /** Seeking to a position lands at it or, by rounding, less than a millisecond and a
      frame before. */
  lemma SeekLandsThere(positionMs: U64, rate: U32)
    requires 0 < rate && positionMs * rate < 0x1_0000_0000_0000_0000 * 1000
    ensures var ms := Milliseconds(RequestedFrame(positionMs, rate), rate);
            ms <= positionMs && positionMs * rate < (ms + 1) * rate + 1000
  {
    RequestedFrameOf(positionMs, rate);
    var f := RequestedFrame(positionMs, rate);
    MillisecondsOf(f, rate);
    var ms := Milliseconds(f, rate);
    assert (positionMs + 1) * rate == positionMs * rate + rate;
    if positionMs < ms {
      Monotone(positionMs + 1, ms, rate);
    }
  }

  lemma Monotone(a: nat, b: nat, c: nat)
    requires a <= b
    ensures a * c <= b * c
  {
    assert (b - a) * c == b * c - a * c;
  }
}

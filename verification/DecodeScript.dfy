/** The synchronous decode loop as a function of what it meets:
    crates/around-engine/src/pipeline.rs, run_stream_with_session. */
module DecodeScript {
  import opened Pcm
  import opened OutputPlan
  import opened OutputSession

  datatype Status = Playing | Paused | Stopped | Buffering | Error

  /** A queued seek and the codec's answer to it, negative for an error. */
  datatype Seek = Seek(positionMs: U64, answer: int)

  /** What one turn of the loop finds: flags other threads set, queued seeks, the
      codec's read and device events. `read` is the sample count the codec reports;
      `samples` is what it left in the decode region. */
  datatype Turn = Turn(
    cancelled: bool, deviceLost: bool, snapshot: Option<Snapshot>, control: Option<Status>, seeks: seq<Seek>,
    read: int, samples: seq<real>, lost: Option<bool>, lostMeanwhile: bool, snapshotAfter: Option<Snapshot>)

  /** What the output session answers in one turn. */
  datatype Answer = Answer(
    rebound: Result<(), OutputError>, submitted: Result<nat, OutputError>, reboundAfter: Result<(), OutputError>)

  datatype Failure = RebindFailed(error: OutputError) | OutputFailed(error: OutputError) | DecodeFailed(code: int)

  /** The loop's variables and the stream state it publishes. */
  datatype Playback = Playback(
    frames: nat, errors: nat, status: Status, positionMs: nat, deviceLost: bool, failure: Option<Failure>, done: bool)

  datatype Event =
    | Rebound
    | Sought(requested: U64, answer: nat)
    | SeekRefused(requested: U64)
    | Delivered(samples: seq<real>, frames: nat)
    | Skipped
    | ReadFailed(code: int)

  datatype Stream = Stream(autoReconnect: bool, rate: U32, channels: U8)
  {
    predicate Valid() { 0 < rate && 1 <= channels <= 32 }
  }

  const Started := Playback(0, 0, Playing, 0, false, None, false)

  function Milliseconds(frames: nat, rate: U32): nat
    requires 0 < rate
  {
    frames * 1000 / rate
  }

  /** The frame a seek asks for, saturating at u64. */
  function RequestedFrame(positionMs: U64, rate: U32): U64 {
    var requested := positionMs * rate / 1000;
    if requested > 0xFFFF_FFFF_FFFF_FFFF then 0xFFFF_FFFF_FFFF_FFFF else requested
  }

  function Frames(t: Turn, stream: Stream): nat
    requires stream.Valid()
  {
    if t.read <= 0 then 0 else t.read / stream.channels
  }

  /** The samples of a turn's whole frames. */
  function BlockOf(t: Turn, stream: Stream): (block: seq<real>)
    requires stream.Valid()
  {
    var n := Frames(t, stream) * stream.channels;
    if n <= |t.samples| then t.samples[..n] else t.samples
  }

  function AfterDevice(p: Playback, t: Turn, rebound: Result<(), OutputError>, stream: Stream): (Playback, seq<Event>) {
    if !t.deviceLost then (p, [])
    else if !stream.autoReconnect then (p.(deviceLost := true, status := Error, done := true), [])
    else
      match rebound
      case Err(e) => (p.(deviceLost := true, status := Error, failure := Some(RebindFailed(e)), done := true), [])
      case Ok(_) => (p.(deviceLost := false), [Rebound])
  }

  function AfterSeeks(p: Playback, seeks: seq<Seek>, stream: Stream): (r: (Playback, seq<Event>))
    requires stream.Valid()
    ensures r.0.done == p.done && r.0.failure == p.failure && r.0.errors == p.errors && r.0.deviceLost == p.deviceLost
    ensures |seeks| == 0 ==> r.0 == p
  {
    if |seeks| == 0 then (p, [])
    else
      var (q, events) := AfterSeeks(p, seeks[..|seeks| - 1], stream);
      var last := seeks[|seeks| - 1];
      var requested := RequestedFrame(last.positionMs, stream.rate);
      if last.answer >= 0 then
        (q.(frames := last.answer, positionMs := Milliseconds(last.answer, stream.rate), status := Playing),
         events + [Sought(requested, last.answer)])
      else (q, events + [SeekRefused(requested)])
  }

  function AfterRead(p: Playback, t: Turn, submitted: Result<nat, OutputError>, reboundAfter: Result<(), OutputError>,
                     stream: Stream)
    : (Playback, seq<Event>)
    requires stream.Valid()
  {
    if t.read > 0 then
      match submitted
      case Ok(_) =>
        var frames := p.frames + Frames(t, stream);
        (p.(frames := frames, errors := 0, positionMs := Milliseconds(frames, stream.rate)),
         [Delivered(BlockOf(t, stream), Frames(t, stream))])
      case Err(e) =>
        if e == Lost && stream.autoReconnect then
          match reboundAfter
          case Err(r) => (p.(status := Error, failure := Some(RebindFailed(r)), done := true), [Skipped])
          case Ok(_) => (p.(status := Playing), [Skipped, Rebound])
        else (p.(status := Error, failure := Some(OutputFailed(e)), done := true), [Skipped])
    else if t.read == 0 then (p.(done := true), [])
    else if p.errors + 1 >= 3 then
      (p.(errors := p.errors + 1, status := Error, failure := Some(DecodeFailed(t.read)), done := true),
       [ReadFailed(t.read)])
    else (p.(errors := p.errors + 1), [ReadFailed(t.read)])
  }

  /** One turn of the loop. */
  function Turned(p: Playback, t: Turn, a: Answer, stream: Stream): (Playback, seq<Event>)
    requires stream.Valid()
  {
    if p.done then (p, [])
    else if t.cancelled then (p.(done := true), [])
    else
      var (device, e1) := AfterDevice(p, t, a.rebound, stream);
      if device.done then (device, e1)
      else
        var q := if t.control.Some? then device.(status := t.control.value) else device;
        if q.status == Paused then (q, e1)
        else
          var (sought, e2) := AfterSeeks(q, t.seeks, stream);
          var (r, e3) := AfterRead(sought, t, a.submitted, a.reboundAfter, stream);
          (r, e1 + e2 + e3)
  }

  function Run(turns: seq<Turn>, answers: seq<Answer>, stream: Stream): (Playback, seq<Event>)
    requires stream.Valid() && |turns| == |answers|
  {
    if |turns| == 0 then (Started, [])
    else
      var n := |turns| - 1;
      var (p, log) := Run(turns[..n], answers[..n], stream);
      var (q, events) := Turned(p, turns[n], answers[n], stream);
      (q, log + events)
  }

  /** The loop's exit: Stopped unless an error is to be reported. */
  function Finished(p: Playback): Playback {
    if p.failure.None? then p.(status := Stopped) else p
  }

  // ------------------------------------------------------------ what a log says

  /** Frames of the delivered blocks. */
  function Total(log: seq<Event>): nat {
    if |log| == 0 then 0
    else
      var last := log[|log| - 1];
      Total(log[..|log| - 1]) + (if last.Delivered? then last.frames else 0)
  }

  function ReadErrors(log: seq<Event>): nat {
    if |log| == 0 then 0
    else ReadErrors(log[..|log| - 1]) + (if log[|log| - 1].ReadFailed? then 1 else 0)
  }

  predicate NoSeek(log: seq<Event>) {
    forall e | e in log :: !e.Sought?
  }

  predicate NoDelivery(log: seq<Event>) {
    forall e | e in log :: !e.Delivered?
  }

  /** Last successful seek's frame, plus frames delivered since. */
  function Position(log: seq<Event>): nat {
    if |log| == 0 then 0
    else
      var last := log[|log| - 1];
      match last
      case Sought(_, answer) => answer
      case Delivered(_, frames) => Position(log[..|log| - 1]) + frames
      case _ => Position(log[..|log| - 1])
  }

  function ErrorsSinceDelivery(log: seq<Event>): nat {
    if |log| == 0 then 0
    else
      var last := log[|log| - 1];
      match last
      case Delivered(_, _) => 0
      case ReadFailed(_) => ErrorsSinceDelivery(log[..|log| - 1]) + 1
      case _ => ErrorsSinceDelivery(log[..|log| - 1])
  }

  lemma {:induction false} PositionSplit(a: seq<Event>, b: seq<Event>)
    requires NoSeek(b)
    ensures Position(a + b) == Position(a) + Total(b)
  {
    if |b| == 0 {
      assert a + b == a;
    } else {
      var n := |b| - 1;
      assert (a + b)[..|a + b| - 1] == a + b[..n];
      PositionSplit(a, b[..n]);
    }
  }

  lemma {:induction false} ErrorsSplit(a: seq<Event>, b: seq<Event>)
    requires NoDelivery(b)
    ensures ErrorsSinceDelivery(a + b) == ErrorsSinceDelivery(a) + ReadErrors(b)
  {
    if |b| == 0 {
      assert a + b == a;
    } else {
      var n := |b| - 1;
      assert (a + b)[..|a + b| - 1] == a + b[..n];
      ErrorsSplit(a, b[..n]);
    }
  }

  // ------------------------------------------------------------- the invariants

  /** What the loop's variables owe to its log. */
  predicate Accounted(p: Playback, log: seq<Event>, stream: Stream)
    requires stream.Valid()
  {
    && p.frames == Position(log)
    && p.positionMs == Milliseconds(p.frames, stream.rate)
    && p.errors == ErrorsSinceDelivery(log) <= 3
    && (p.errors == 3 <==> p.failure.Some? && p.failure.value.DecodeFailed?)
    && (p.errors == 3 ==> log[|log| - 1] == ReadFailed(p.failure.value.code))
    && (p.failure.Some? ==> p.done && p.status == Error)
    && (p.failure == Some(OutputFailed(Lost)) ==> !stream.autoReconnect)
  }

  lemma NothingLogged()
    ensures Position([]) == 0 && ErrorsSinceDelivery([]) == 0
  {
  }

  lemma LogStep(log: seq<Event>, e: Event)
    ensures Position(log + [e])
         == (match e case Sought(_, k) => k case Delivered(_, n) => Position(log) + n case _ => Position(log))
    ensures ErrorsSinceDelivery(log + [e])
         == (match e case Delivered(_, _) => 0 case ReadFailed(_) => ErrorsSinceDelivery(log) + 1
             case _ => ErrorsSinceDelivery(log))
  {
    assert (log + [e])[..|log|] == log;
  }

  lemma {:induction false} SeeksAccounted(p: Playback, log: seq<Event>, seeks: seq<Seek>, stream: Stream)
    requires stream.Valid() && Accounted(p, log, stream) && !p.done
    ensures var (q, events) := AfterSeeks(p, seeks, stream); Accounted(q, log + events, stream)
  {
    hide Milliseconds, Position, ErrorsSinceDelivery, RequestedFrame;
    if |seeks| == 0 {
      var none: seq<Event> := [];
      assert log + none == log;
    } else {
      var n := |seeks| - 1;
      SeeksAccounted(p, log, seeks[..n], stream);
      var (q, events) := AfterSeeks(p, seeks[..n], stream);
      var (_, more) := AfterSeeks(p, seeks, stream);
      LogStep(log + events, more[|more| - 1]);
      assert log + more == (log + events) + [more[|more| - 1]];
    }
  }

  lemma DeviceAccounted(p: Playback, log: seq<Event>, t: Turn, a: Answer, stream: Stream)
    requires stream.Valid() && Accounted(p, log, stream) && !p.done
    ensures var (q, events) := AfterDevice(p, t, a.rebound, stream); Accounted(q, log + events, stream)
  {
    LogStep(log, Rebound);
    var none: seq<Event> := [];
    assert log + none == log;
  }

  lemma ReadAccounted(p: Playback, log: seq<Event>, t: Turn, a: Answer, stream: Stream)
    requires stream.Valid() && Accounted(p, log, stream) && !p.done
    ensures var (q, events) := AfterRead(p, t, a.submitted, a.reboundAfter, stream); Accounted(q, log + events, stream)
  {
    hide Milliseconds, Position, ErrorsSinceDelivery, BlockOf, Frames;
    var (q, events) := AfterRead(p, t, a.submitted, a.reboundAfter, stream);
    if |events| == 0 {
      assert log + events == log;
    } else {
      LogStep(log, events[0]);
      if |events| == 2 {
        LogStep(log + [events[0]], events[1]);
        assert log + events == (log + [events[0]]) + [events[1]];
      }
    }
  }

  lemma TurnAccounted(p: Playback, log: seq<Event>, t: Turn, a: Answer, stream: Stream)
    requires stream.Valid() && Accounted(p, log, stream) && !p.done
    ensures var (q, events) := Turned(p, t, a, stream); Accounted(q, log + events, stream)
  {
    hide Position, ErrorsSinceDelivery, Milliseconds, AfterDevice, AfterSeeks, AfterRead;
    var none: seq<Event> := [];
    assert log + none == log;
    if !t.cancelled {
      DeviceAccounted(p, log, t, a, stream);
      var (device, e1) := AfterDevice(p, t, a.rebound, stream);
      if !device.done {
        var q := if t.control.Some? then device.(status := t.control.value) else device;
        if q.status != Paused {
          SeeksAccounted(q, log + e1, t.seeks, stream);
          var (sought, e2) := AfterSeeks(q, t.seeks, stream);
          ReadAccounted(sought, log + e1 + e2, t, a, stream);
          var (_, e3) := AfterRead(sought, t, a.submitted, a.reboundAfter, stream);
          assert log + (e1 + e2 + e3) == log + e1 + e2 + e3;
        }
      }
    }
  }

  /** Main invariant of every run, at every point. */
  lemma {:induction false} RunAccounted(turns: seq<Turn>, answers: seq<Answer>, stream: Stream)
    requires stream.Valid() && |turns| == |answers|
    ensures var (p, log) := Run(turns, answers, stream); Accounted(p, log, stream)
  {
    hide Position, ErrorsSinceDelivery, AfterDevice, AfterSeeks, AfterRead;
    if |turns| == 0 {
      NothingLogged();
      assert Milliseconds(0, stream.rate) == 0;
    } else {
      var n := |turns| - 1;
      RunAccounted(turns[..n], answers[..n], stream);
      var (p, log) := Run(turns[..n], answers[..n], stream);
      if p.done {
        assert log + [] == log;
      } else {
        TurnAccounted(p, log, turns[n], answers[n], stream);
      }
    }
  }

  /** Conservation: the frame count is the last successful seek's answer plus the
      frames of the blocks delivered since, or all delivered frames before any. */
  lemma FramesConserved(turns: seq<Turn>, answers: seq<Answer>, stream: Stream, before: seq<Event>, since: seq<Event>)
    requires stream.Valid() && |turns| == |answers|
    requires Run(turns, answers, stream).1 == before + since && NoSeek(since)
    requires |before| == 0 || before[|before| - 1].Sought?
    ensures Run(turns, answers, stream).0.frames
         == (if |before| == 0 then 0 else before[|before| - 1].answer) + Total(since)
  {
    RunAccounted(turns, answers, stream);
    PositionSplit(before, since);
  }

  /** A run fails with a decode error exactly when three reads failed with no block
      delivered among or after them; seeks, pauses, lost blocks and rebinds in
      between do not matter. */
  lemma DecodeErrorExactly(turns: seq<Turn>, answers: seq<Answer>, stream: Stream, before: seq<Event>,
                           since: seq<Event>)
    requires stream.Valid() && |turns| == |answers|
    requires Run(turns, answers, stream).1 == before + since && NoDelivery(since)
    requires |before| == 0 || before[|before| - 1].Delivered?
    ensures var p := Run(turns, answers, stream).0;
            && ReadErrors(since) <= 3
            && (p.failure.Some? && p.failure.value.DecodeFailed? <==> ReadErrors(since) == 3)
            && (ReadErrors(since) == 3 ==> p.done && since[|since| - 1] == ReadFailed(p.failure.value.code))
  {
    RunAccounted(turns, answers, stream);
    ErrorsSplit(before, since);
    if ReadErrors(since) == 3 {
      assert (before + since)[|before + since| - 1] == since[|since| - 1];
    }
  }

  /** The published status at exit says Stopped exactly when no failure is
      returned: a device loss without reconnection also ends as Stopped. */
  lemma StoppedExactlyWithoutFailure(turns: seq<Turn>, answers: seq<Answer>, stream: Stream)
    requires stream.Valid() && |turns| == |answers|
    ensures var p := Finished(Run(turns, answers, stream).0);
            (p.status == Stopped <==> p.failure.None?)
  {
    RunAccounted(turns, answers, stream);
  }

  /** A device loss without reconnection ends the run there, and although the loop
      has just published Error, the run ends as Stopped and returns no error. */
  lemma DeviceLossEndsStopped(turns: seq<Turn>, answers: seq<Answer>, stream: Stream)
    requires stream.Valid() && |turns| == |answers| > 0 && !stream.autoReconnect
    requires !Run(turns[..|turns| - 1], answers[..|turns| - 1], stream).0.done
    requires turns[|turns| - 1].deviceLost && !turns[|turns| - 1].cancelled
    ensures var p := Run(turns, answers, stream).0;
            p.done && p.status == Error && p.failure.None? && Finished(p).status == Stopped
  {
    RunAccounted(turns[..|turns| - 1], answers[..|turns| - 1], stream);
  }
}

/** What a session answers and leaves behind, case by case:
    crates/around-engine/src/output_session.rs:90-195 and 251-330. */
module SessionLaws {
  import opened Pcm
  import opened Resampler
  import opened BlockLayout
  import opened FilterChain
  import opened ChainLaws
  import opened OutputPlan
  import opened OutputSession

  /** A closed session refuses before anything else, then a lost device; neither touches
      anything. */
  lemma RefusedSubmissions(v: SessionValue, decoded: seq<real>, frames: nat, w: Regions, lostMeanwhile: bool,
                           around: Around)
    requires v.Agrees()
    ensures v.closed ==> SubmitValue(v, decoded, frames, w, lostMeanwhile, around) == (v, Err(Closed))
    ensures !v.closed && v.lost ==> SubmitValue(v, decoded, frames, w, lostMeanwhile, around) == (v, Err(Lost))
    ensures v.closed || v.lost ==> FilterAfter(v, decoded, frames, w.filter) == w.filter
  {
  }

  /** On an open device a block of the wrong length is refused with nothing changed, and
      a converted one is either written or, if the device is lost meanwhile, not, and then
      the device is known to be lost. */
  lemma OpenSubmissions(v: SessionValue, decoded: seq<real>, frames: nat, w: Regions, lostMeanwhile: bool,
                        around: Around)
    requires v.Agrees() && !v.closed && !v.lost && CodecFed(v.chain)
    ensures var (u, outcome) := SubmitValue(v, decoded, frames, w, lostMeanwhile, around);
            var (next, converted) := v.chain.Process(decoded, frames, w.filter, w.room, w.outputLength, around.target);
            && (|decoded| != frames * v.chain.decodeSpec.channels ==>
                  u == v && outcome == Err(FilterFailed(InputFormat)))
            && (converted.Err? ==> outcome == Err(FilterFailed(converted.error)) && u.writes == v.writes && !u.lost)
            && (converted.Ok? ==>
                  && u.chain.history == next && u.lost == lostMeanwhile
                  && outcome == (if lostMeanwhile then Err(Lost) else Ok(converted.value))
                  && u.writes == (if lostMeanwhile || around.discard then v.writes else v.writes + [converted.value]))
            && u.plan == v.plan && u.closed == v.closed
  {
    hide Filtered, FilteredBuffer, Chain.Converted;
    assert v.writes + [] == v.writes;
  }

  /** A workspace submission checks the session, then that the count can be a length at
      all, then that the decode region holds it; a refused one changes nothing. */
  lemma WorkspaceRefusals(v: SessionValue, decode: seq<real>, frames: nat, w: Regions, lostMeanwhile: bool,
                          around: Around)
    requires v.Agrees()
    ensures var samples := frames * v.chain.decodeSpec.channels;
            var r := FromWorkspace(v, decode, frames, w, lostMeanwhile, around);
            && (v.closed ==> r == (v, w.filter, Err(Closed)))
            && (!v.closed && v.lost ==> r == (v, w.filter, Err(Lost)))
            && (!v.closed && !v.lost && 0x1_0000_0000_0000_0000 <= samples ==>
                  r == (v, w.filter, Err(FilterFailed(InputFormat))))
            && (!v.closed && !v.lost && |decode| < samples < 0x1_0000_0000_0000_0000 ==>
                  r == (v, w.filter, Err(FilterFailed(WorkspaceTooSmall(samples, |decode|)))))
            && (samples <= |decode| && samples < 0x1_0000_0000_0000_0000 ==>
                  r == (SubmitValue(v, decode[..samples], frames, w, lostMeanwhile, around).0,
                        FilterAfter(v, decode[..samples], frames, w.filter),
                        SubmitValue(v, decode[..samples], frames, w, lostMeanwhile, around).1))
  {
    hide Chain.Process, Chain.Region;
  }

  /** A step does what it names and nothing else. */
  lemma {:induction false} StepEffects(s: Running, step: Step, room: nat, outputLength: nat, around: Around)
    requires s.session.Agrees()
    ensures var (u, result) := Stepped(s, step, room, outputLength, around);
            match step
            case DeviceStep(lost) => u == Running(s.session.(lost := lost), s.filter) && result == DeviceResult
            case RebindStep(discovered) =>
              && (u.session, result.result) == RebindValue(s.session, discovered, around) && u.filter == s.filter
            case SubmitStep(decoded, frames, lostMeanwhile) =>
              && var w := Regions(s.filter, room, outputLength);
              && (u.session, result.outcome) == SubmitValue(s.session, decoded, frames, w, lostMeanwhile, around)
              && (s.session.closed || s.session.lost ==> u.filter == s.filter)
  {
    hide SubmitValue, RebindValue, Chain.Region;
  }

  /** What is wrong with a block: its size cannot be told, or is not its length. */
  lemma BlockRefusals(spec: SampleSpec, frames: nat, data: seq<Byte>)
    ensures var bytes := frames * spec.BytesPerFrame();
            && (0x1_0000_0000_0000_0000 <= bytes ==> NewBlock(spec, frames, data) == Err(SpecOverflow))
            && (bytes < 0x1_0000_0000_0000_0000 && bytes != |data| ==>
                  NewBlock(spec, frames, data) == Err(LengthMismatch(bytes, |data|)))
  {
  }

  /** A rebind that fails says at which of its steps and changes nothing; one that
      succeeds starts the new format on an open binding with an empty history. */
  lemma RebindAnswers(v: SessionValue, discovered: Option<Snapshot>, around: Around)
    requires v.Agrees()
    ensures var (u, r) := RebindValue(v, discovered, around);
            && (r.Err? ==> u == v)
            && (discovered.None? ==> r == Err(Discovery))
            && (r.Ok? ==>
                  && u.plan == r.value && !u.closed && u.chain.outputSpec == r.value.targetSpec
                  && u.chain.history == State(0, Silence(), false)
                  && u.chain.decodeSpec == v.chain.decodeSpec && u.chain.filters == v.chain.filters
                  && u.writes == v.writes && u.lost == v.lost)
            && (discovered.Some? ==>
                  var plan := PlanOutput(discovered.value, v.chain.decodeSpec, around.preferences);
                  && (plan.Err? ==> r == Err(Planning(plan.error)))
                  && (plan.Ok? && BindCheck(around.binder, plan.value).Err? ==>
                        r == Err(Binding(BindCheck(around.binder, plan.value).error)))
                  && (plan.Ok? && BindCheck(around.binder, plan.value).Ok? ==> r == Ok(plan.value)))
  {
    hide PlanOutput, BindCheck;
  }

  /** The binder's answers, in its order: the revision, the device, the mode, the rate,
      the channel count, and the format. */
  lemma BindAnswers(s: Snapshot, p: Plan)
    ensures p.revision != s.revision ==> BindCheck(s, p) == Err(CapabilitiesChanged)
    ensures p.revision == s.revision && (forall d | d in s.devices :: d.id != p.deviceId) ==>
              BindCheck(s, p) == Err(DeviceDisappeared)
    ensures forall i | 0 <= i < |s.devices| && p.revision == s.revision && s.devices[i].id == p.deviceId
                       && (forall j | 0 <= j < i :: s.devices[j].id != p.deviceId) ::
              BindCheck(s, p) == ModeCheck(s.devices[i], p)
  {
    forall i | 0 <= i < |s.devices| && p.revision == s.revision && s.devices[i].id == p.deviceId
               && (forall j | 0 <= j < i :: s.devices[j].id != p.deviceId)
      ensures BindCheck(s, p) == ModeCheck(s.devices[i], p)
    {
      FirstDeviceAt(s.devices, p.deviceId, i);
      ModeChecked(s, p, s.devices[i]);
    }
  }

  lemma {:induction false} FirstDeviceAt(devices: seq<Device>, id: string, i: nat)
    requires i < |devices| && devices[i].id == id && forall j | 0 <= j < i :: devices[j].id != id
    ensures FindDevice(devices, id) == Some(devices[i])
  {
    if i > 0 {
      FirstDeviceAt(devices[1..], id, i - 1);
    }
  }

  lemma {:induction false} FirstModeAt(modes: seq<Mode>, id: U32, i: nat)
    requires i < |modes| && modes[i].id == id && forall j | 0 <= j < i :: modes[j].id != id
    ensures FindMode(modes, id) == Some(modes[i])
  {
    if i > 0 {
      FirstModeAt(modes[1..], id, i - 1);
    }
  }

  /** The answer of the first mode with the planned number. */
  function ModeCheck(d: Device, p: Plan): Result<(), BindError> {
    var i := FirstMode(d.modes, p.modeId);
    if i == |d.modes| then Err(ModeDisappeared)
    else
      var m := d.modes[i];
      if p.targetSpec.sampleRate < m.rates.min || m.rates.max < p.targetSpec.sampleRate then Err(SpecRefused(NoMode))
      else if m.channels > 255 then Err(SpecRefused(UnsupportedChannels(m.channels)))
      else if p.targetSpec.sampleRate == 0 || m.channels == 0 || m.channels > 32 then
        Err(SpecRefused(InvalidCapabilities))
      else if p.targetSpec != SampleSpec(p.targetSpec.sampleRate, m.channels, m.encoding, Interleaved, Native) then
        Err(ModeChanged)
      else Ok(())
  }

  function FirstMode(modes: seq<Mode>, id: U32): (i: nat)
    ensures i <= |modes| && (i < |modes| ==> modes[i].id == id)
    ensures forall j | 0 <= j < i :: modes[j].id != id
  {
    if |modes| == 0 || modes[0].id == id then 0 else 1 + FirstMode(modes[1..], id)
  }

  lemma ModeChecked(s: Snapshot, p: Plan, d: Device)
    requires p.revision == s.revision && FindDevice(s.devices, p.deviceId) == Some(d)
    ensures BindCheck(s, p) == ModeCheck(d, p)
  {
    hide FindDevice, FindMode;
    var i := FirstMode(d.modes, p.modeId);
    if i < |d.modes| {
      FirstModeAt(d.modes, p.modeId, i);
    }
  }
}

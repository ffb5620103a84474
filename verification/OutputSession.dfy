/** The output session over the in-memory adapter:
    crates/around-engine/src/output_session.rs. */
module OutputSession {
  import opened Arith
  import opened Pcm
  import opened Resampler
  import opened SampleCodec
  import opened BlockLayout
  import opened FilterChain
  import opened OutputPlan
  import opened PlanLaws

  datatype BindError = CapabilitiesChanged | DeviceDisappeared | ModeDisappeared | SpecRefused(error: PlanError)
    | ModeChanged | DifferentBinding

  datatype BlockError = SpecOverflow | LengthMismatch(expected: nat, actual: nat)

  datatype OutputError =
    | Discovery
    | Planning(plan: PlanError)
    | Binding(bind: BindError)
    | FilterFailed(filter: FilterError)
    | BlockRefused
    | Closed
    | Lost

  datatype BindingStatus = Active | LostDevice | ClosedBinding

  // ---------------------------------------------------------------- blocks

  /** AudioBufferRef: a format, a frame count and exactly that many bytes. */
  datatype BlockRef = BlockRef(spec: SampleSpec, frames: nat, data: seq<Byte>)

  function NewBlock(spec: SampleSpec, frames: nat, data: seq<Byte>): (r: Result<BlockRef, BlockError>)
    ensures r.Ok? <==> frames * spec.BytesPerFrame() == |data| <= USIZE_MAX
    ensures r.Ok? ==> r.value == BlockRef(spec, frames, data)
  {
    var expected := frames * spec.BytesPerFrame();
    if expected > USIZE_MAX then Err(SpecOverflow)
    else if expected != |data| then Err(LengthMismatch(expected, |data|))
    else Ok(BlockRef(spec, frames, data))
  }

  // --------------------------------------------------------------- binding

  function FindDevice(devices: seq<Device>, id: string): (r: Option<Device>)
    ensures r.Some? ==> r.value in devices && r.value.id == id
    ensures r.None? ==> forall d | d in devices :: d.id != id
  {
    if |devices| == 0 then None
    else if devices[0].id == id then Some(devices[0])
    else FindDevice(devices[1..], id)
  }

  function FindMode(modes: seq<Mode>, id: U32): (r: Option<Mode>)
    ensures r.Some? ==> r.value in modes && r.value.id == id
    ensures r.None? ==> forall m | m in modes :: m.id != id
  {
    if |modes| == 0 then None
    else if modes[0].id == id then Some(modes[0])
    else FindMode(modes[1..], id)
  }

  /** bind's checks of a plan against the binder's own snapshot. */
  function BindCheck(s: Snapshot, p: Plan): Result<(), BindError> {
    if p.revision != s.revision then Err(CapabilitiesChanged)
    else
      match FindDevice(s.devices, p.deviceId)
      case None => Err(DeviceDisappeared)
      case Some(d) =>
        match FindMode(d.modes, p.modeId)
        case None => Err(ModeDisappeared)
        case Some(m) =>
          match m.SpecAt(p.targetSpec.sampleRate)
          case Err(e) => Err(SpecRefused(e))
          case Ok(spec) => if spec != p.targetSpec then Err(ModeChanged) else Ok(())
  }

  /** The device and mode a plan was made of, as its own snapshot has them. */
  lemma PlanOrigin(s: Snapshot, source: SampleSpec, preferences: seq<Preference>) returns (d: Device, m: Mode)
    requires PlanOutput(s, source, preferences).Ok?
    ensures var p := PlanOutput(s, source, preferences).value;
            && p.revision == s.revision && p.targetSpec.Valid() && m.channels <= 0xFF
            && p.targetSpec == SampleSpec(p.targetSpec.sampleRate, m.channels, m.encoding, Interleaved, Native)
            && m.SpecAt(p.targetSpec.sampleRate) == Ok(p.targetSpec)
            && FindDevice(s.devices, p.deviceId) == Some(d) && m in d.modes && m.id == p.modeId
  {
    hide Candidate, ComparePlan, ConversionLoss, RatesFor;
    var q := Query(s.revision, source, preferences);
    var p := PlanOutput(s, source, preferences).value;
    PlansWithCandidates(s, source, preferences);
    PlanIsLeast(s, source, preferences);
    d, m := CandidateParts(p, q, s.devices);
    RatesAreOffered(q.preferences[p.preferenceIndex].mode, m, source.sampleRate);
    DeviceIdsDistinct(s, d, FindDevice(s.devices, d.id).value);
  }

  /** The binder accepts a plan made from its own snapshot exactly when the first
      mode with the planned id offers the planned format. */
  lemma OwnPlanAcceptedExactly(s: Snapshot, source: SampleSpec, preferences: seq<Preference>)
    requires PlanOutput(s, source, preferences).Ok?
    ensures var p := PlanOutput(s, source, preferences).value;
            && FindDevice(s.devices, p.deviceId).Some?
            && var first := FindMode(FindDevice(s.devices, p.deviceId).value.modes, p.modeId);
            && first.Some?
            && (BindCheck(s, p).Ok? <==>
                first.value.channels == p.targetSpec.channels && first.value.encoding == p.targetSpec.encoding
                && first.value.rates.Contains(p.targetSpec.sampleRate))
  {
    hide PlanOutput;
    var d, m := PlanOrigin(s, source, preferences);
  }

  /** With distinct mode ids per device that is always so. */
  lemma OwnPlanAccepted(s: Snapshot, source: SampleSpec, preferences: seq<Preference>)
    requires PlanOutput(s, source, preferences).Ok? && DistinctModeIds(s.devices)
    ensures BindCheck(s, PlanOutput(s, source, preferences).value) == Ok(())
  {
    hide PlanOutput;
    var d, m := PlanOrigin(s, source, preferences);
    var first := FindMode(d.modes, m.id).value;
    assert first == m;
  }

  const ModeAt48: Mode := Mode(1, 2, F32, RateRange(48000, 48000), 48000, false, 0)
  const ModeAt44: Mode := Mode(1, 2, F32, RateRange(44100, 44100), 44100, false, 0)

  /** A device with two modes of one id. */
  const SharedId: Device := Device("d", "device", Usb, 0, [ModeAt48, ModeAt44])

  /** A refused plan: the mode the plan is made of is second under its id, and the
      first does not offer the planned rate. */
  lemma OwnPlanRefused()
    ensures var s := Snapshot(0, [SharedId]);
            var source := SampleSpec(44100, 2, F32, Interleaved, Native);
            var preferences := [Preference(AnyDevice, ExactMode(44100, F32, 2), Stop)];
            && ValidSnapshot(s) && PlanOutput(s, source, preferences).Ok?
            && BindCheck(s, PlanOutput(s, source, preferences).value) == Err(SpecRefused(NoMode))
  {
    hide PlanOutput, ConversionLoss, ComparePlan;
    var s := Snapshot(0, [SharedId]);
    var source := SampleSpec(44100, 2, F32, Interleaved, Native);
    var preferences := [Preference(AnyDevice, ExactMode(44100, F32, 2), Stop)];
    var q := Query(0, source, preferences);
    assert SharedId.modes[1] == ModeAt44 && Matched(q, 0, SharedId, ModeAt44);
    var c := MakePlan(q, 0, SharedId, ModeAt44, 44100);
    assert RatesFor(preferences[0].mode, ModeAt44, 44100)[0] == 44100;
    assert FromMode(c, q, 0, SharedId, ModeAt44);
    assert s.devices[0] == SharedId && FromDevice(c, q, 0, SharedId);
    assert FromPreference(c, q, 0, s.devices) && Candidate(c, q, s.devices);
    PlansWithCandidates(s, source, preferences);
    PlanIsLeast(s, source, preferences);
    var p := PlanOutput(s, source, preferences).value;
    var d, m := CandidateParts(p, q, s.devices);
    assert FindDevice(s.devices, p.deviceId) == Some(SharedId);
    assert FindMode(SharedId.modes, 1) == Some(ModeAt48) by {
      assert SharedId.modes[0] == ModeAt48;
    }
  }

  // ----------------------------------------------------------- the adapter

  /** The adapter: a fixed snapshot, the blocks written so far, and whether the
      device is lost. Bindings share it. */
  class MemoryOutputAdapter {
    const snapshot: Snapshot
    const discard: bool
    var writes: seq<seq<Byte>>
    var lost: bool

    constructor (snapshot: Snapshot, discard: bool)
      ensures this.snapshot == snapshot && this.discard == discard && writes == [] && !lost
    {
      this.snapshot, this.discard, writes, lost := snapshot, discard, [], false;
    }

    method SetLost(lost: bool)
      modifies this`lost
      ensures this.lost == lost
    {
      this.lost := lost;
    }

    method Bind(plan: Plan) returns (r: Result<MemoryOutputBinding, BindError>)
      ensures match BindCheck(snapshot, plan)
              case Err(e) => r == Err(e)
              case Ok(_) => r.Ok? && fresh(r.value) && r.value.adapter == this && !r.value.closed
                            && r.value.deviceId == plan.deviceId && r.value.spec == plan.targetSpec
    {
      if plan.revision != snapshot.revision {
        return Err(CapabilitiesChanged);
      }
      var device := FindDevice(snapshot.devices, plan.deviceId);
      if device.None? {
        return Err(DeviceDisappeared);
      }
      var mode := FindMode(device.value.modes, plan.modeId);
      if mode.None? {
        return Err(ModeDisappeared);
      }
      var spec := mode.value.SpecAt(plan.targetSpec.sampleRate);
      if spec.Err? {
        return Err(SpecRefused(spec.error));
      }
      if spec.value != plan.targetSpec {
        return Err(ModeChanged);
      }
      var binding := new MemoryOutputBinding(this, plan.deviceId, plan.targetSpec);
      return Ok(binding);
    }
  }

  class MemoryOutputBinding {
    const adapter: MemoryOutputAdapter
    const deviceId: string
    const spec: SampleSpec
    var closed: bool

    constructor (adapter: MemoryOutputAdapter, deviceId: string, spec: SampleSpec)
      ensures this.adapter == adapter && this.deviceId == deviceId && this.spec == spec && !closed
    {
      this.adapter, this.deviceId, this.spec, closed := adapter, deviceId, spec, false;
    }

    function Status(): (status: BindingStatus)
      reads this, adapter
      ensures closed ==> status == ClosedBinding
      ensures !closed && adapter.lost ==> status == LostDevice
      ensures !closed && !adapter.lost ==> status == Active
    {
      if closed then ClosedBinding else if adapter.lost then LostDevice else Active
    }

    /** One whole-frame block of the binding's own format, or nothing. */
    method Write(block: BlockRef) returns (r: Result<(), OutputError>)
      requires spec.Valid()
      modifies adapter`writes
      ensures r.Ok? <==> Status() == Active && block.spec == spec && |block.data| % Positive(spec) == 0
      ensures Status() == LostDevice ==> r == Err(Lost)
      ensures Status() == ClosedBinding ==> r == Err(Closed)
      ensures adapter.writes == old(adapter.writes) + (if r.Ok? && !adapter.discard then [block.data] else [])
    {
      FrameBytesPositive(spec);
      match Status()
      case LostDevice => return Err(Lost);
      case ClosedBinding => return Err(Closed);
      case Active =>
      if block.spec != spec || |block.data| % spec.BytesPerFrame() != 0 {
        return Err(BlockRefused);
      }
      if !adapter.discard {
        adapter.writes := adapter.writes + [block.data];
      }
      return Ok(());
    }

    method Close()
      modifies this
      ensures closed
    {
      closed := true;
    }
  }

  function Positive(spec: SampleSpec): (n: nat)
    requires spec.Valid()
    ensures 0 < n == spec.BytesPerFrame()
  {
    FrameBytesPositive(spec);
    spec.BytesPerFrame()
  }

  // ----------------------------------------------------------- the session

  /** What opening and rebinding both decide: the new plan, or the first failure
      of discovery, planning and binding, in that order. */
  function Replanned(discovered: Option<Snapshot>, source: SampleSpec, preferences: seq<Preference>, binder: Snapshot)
    : Result<Plan, OutputError>
  {
    if discovered.None? then Err(Discovery)
    else
      match PlanOutput(discovered.value, source, preferences)
      case Err(e) => Err(Planning(e))
      case Ok(p) =>
        match BindCheck(binder, p)
        case Err(e) => Err(Binding(e))
        case Ok(_) => Ok(p)
  }

  /** What one submission comes to: the block delivered, or the error. */
  function Submitted(status: BindingStatus, converted: Result<seq<Byte>, FilterError>, lostMeanwhile: bool)
    : Result<seq<Byte>, OutputError>
  {
    match status
    case LostDevice => Err(Lost)
    case ClosedBinding => Err(Closed)
    case Active =>
      match converted
      case Err(e) => Err(FilterFailed(e))
      case Ok(bytes) => if lostMeanwhile then Err(Lost) else Ok(bytes)
  }

  function Delivered(outcome: Result<seq<Byte>, OutputError>, discard: bool): seq<seq<Byte>> {
    if outcome.Ok? && !discard then [outcome.value] else []
  }

  function Written(outcome: Result<seq<Byte>, OutputError>): Result<nat, OutputError> {
    match outcome
    case Err(e) => Err(e)
    case Ok(bytes) => Ok(|bytes|)
  }

  /** A converted block is a whole number of frames of the output format. */
  lemma WholeFrameBlock(ch: Chain, input: seq<real>, frames: nat, region: seq<real>, room: nat, outputLength: nat,
                        target: Target)
    returns (n: nat)
    requires ch.Valid()
    requires ch.Process(input, frames, region, room, outputLength, target).1.Ok?
    ensures |ch.Process(input, frames, region, room, outputLength, target).1.value|
         == n * ch.outputSpec.BytesPerFrame() <= USIZE_MAX
    ensures n * ch.outputSpec.BytesPerFrame() <= outputLength
  {
    hide Chain.Prepared, Chain.Converted, Flat;
    var stage := ch.Prepared(input, frames, region).value;
    n := |ch.Converted(stage.buffer[..stage.count], stage.channels, room).value.1|;
  }

  // ------------------------------------------------- the session, as a function

  /** A session's value: its plan and chain, whether its binding is closed, and the
      adapter it shares. */
  datatype SessionValue = SessionValue(plan: Plan, chain: Chain, closed: bool, lost: bool, writes: seq<seq<Byte>>)
  {
    predicate Agrees() {
      chain.Valid() && chain.outputSpec == plan.targetSpec && plan.targetSpec.interleave == Interleaved
    }

    function Status(): BindingStatus {
      if closed then ClosedBinding else if lost then LostDevice else Active
    }
  }

  /** What stays fixed around it: preferences, the binder's snapshot, the target, and
      whether the adapter keeps what is written. */
  datatype Around = Around(preferences: seq<Preference>, binder: Snapshot, target: Target, discard: bool)

  /** A filter region and the sizes of the scratch and output regions. */
  datatype Regions = Regions(filter: seq<real>, room: nat, outputLength: nat)

  /** submit. */
  function SubmitValue(v: SessionValue, decoded: seq<real>, frames: nat, w: Regions, lostMeanwhile: bool,
                       around: Around)
    : (r: (SessionValue, Result<seq<Byte>, OutputError>))
    requires v.Agrees()
    ensures r.0.Agrees()
  {
    if v.Status() != Active then (v, Submitted(v.Status(), Err(InputFormat), false))
    else
      var (next, converted) := v.chain.Process(decoded, frames, w.filter, w.room, w.outputLength, around.target);
      var outcome := Submitted(Active, converted, lostMeanwhile);
      (v.(chain := v.chain.(history := next), lost := converted.Ok? && lostMeanwhile,
          writes := v.writes + Delivered(outcome, around.discard)),
       outcome)
  }

  /** The filter region after a submission. */
  function FilterAfter(v: SessionValue, decoded: seq<real>, frames: nat, filter: seq<real>): (r: seq<real>)
    ensures |r| == |filter|
  {
    if v.Status() == Active then v.chain.Region(decoded, frames, filter) else filter
  }

  /** rebind. */
  function RebindValue(v: SessionValue, discovered: Option<Snapshot>, around: Around)
    : (r: (SessionValue, Result<Plan, OutputError>))
    requires v.Agrees()
    ensures r.0.Agrees() && r.0.writes == v.writes && r.0.lost == v.lost
  {
    var plan := Replanned(discovered, v.chain.decodeSpec, around.preferences, around.binder);
    match plan
    case Err(_) => (v, plan)
    case Ok(p) =>
      ReplannedFormat(discovered, v.chain.decodeSpec, around.preferences, around.binder);
      (v.(plan := p, closed := false,
          chain := v.chain.(outputSpec := p.targetSpec, history := State(0, Silence(), false))),
       plan)
  }

  lemma ReplannedFormat(discovered: Option<Snapshot>, source: SampleSpec, preferences: seq<Preference>,
                        binder: Snapshot)
    ensures var plan := Replanned(discovered, source, preferences, binder);
            plan.Ok? ==> plan.value.targetSpec.Valid() && plan.value.targetSpec.interleave == Interleaved
  {
    hide PlanOutput, BindCheck;
    if discovered.Some? && PlanOutput(discovered.value, source, preferences).Ok? {
      PlanFormat(discovered.value, source, preferences);
    }
  }

  class OutputSession {
    const adapter: MemoryOutputAdapter
    const preferences: seq<Preference>
    const chain: FilterChain
    var plan: Plan
    var binding: MemoryOutputBinding

    ghost function Value(): SessionValue
      reads this, chain, chain.previousFrame, binding, adapter
      requires chain.Valid()
    {
      SessionValue(plan, chain.Value(), binding.closed, adapter.lost, adapter.writes)
    }

    ghost function Surroundings(): Around {
      Around(preferences, adapter.snapshot, chain.target, adapter.discard)
    }

    /** Chain, plan and binding agree on an interleaved format and on the device. */
    ghost predicate Valid()
      reads this, chain, chain.previousFrame
    {
      && chain.Valid()
      && chain.outputSpec == plan.targetSpec == binding.spec && plan.targetSpec.interleave == Interleaved
      && binding.deviceId == plan.deviceId && binding.adapter == adapter
    }

    constructor Bound(adapter: MemoryOutputAdapter, preferences: seq<Preference>, plan: Plan, chain: FilterChain,
                      binding: MemoryOutputBinding)
      requires chain.Valid() && chain.outputSpec == plan.targetSpec == binding.spec
      requires plan.targetSpec.interleave == Interleaved
      requires binding.deviceId == plan.deviceId && binding.adapter == adapter
      ensures Valid() && this.adapter == adapter && this.preferences == preferences && this.plan == plan
      ensures this.chain == chain && this.binding == binding
    {
      this.adapter, this.preferences, this.plan, this.chain, this.binding := adapter, preferences, plan, chain, binding;
    }

    static method Open(discovered: Option<Snapshot>, adapter: MemoryOutputAdapter, source: SampleSpec,
                       filters: seq<Filter>, preferences: seq<Preference>, target: Target)
      returns (r: Result<OutputSession, OutputError>)
      requires source.Valid()
      ensures match Replanned(discovered, source, preferences, adapter.snapshot)
              case Err(e) => r == Err(e)
              case Ok(p) =>
                && r.Ok? && fresh(r.value) && fresh(r.value.chain) && fresh(r.value.chain.previousFrame)
                  && fresh(r.value.binding)
                && r.value.Valid() && r.value.plan == p && r.value.adapter == adapter
                  && r.value.preferences == preferences
                && !r.value.binding.closed && r.value.chain.target == target
                && r.value.chain.Value() == Chain(filters, source, p.targetSpec, State(0, Silence(), false))
    {
      hide PlanOutput;
      if discovered.None? {
        return Err(Discovery);
      }
      var plan := PlanOutputLoop(discovered.value, source, preferences);
      if plan.Err? {
        return Err(Planning(plan.error));
      }
      PlanFormat(discovered.value, source, preferences);
      var chain := new FilterChain.Build(source, filters, plan.value.targetSpec, target);
      var binding := adapter.Bind(plan.value);
      if binding.Err? {
        return Err(Binding(binding.error));
      }
      // the adapter never returns a binding different from its plan
      assert binding.value.spec == plan.value.targetSpec && binding.value.deviceId == plan.value.deviceId;
      var session := new OutputSession.Bound(adapter, preferences, plan.value, chain, binding.value);
      return Ok(session);
    }

    /** submit: one block through the chain to the binding. `lostMeanwhile` is a
        device loss between the status check and the write. */
    method Submit(decoded: seq<real>, frames: nat, workspace: PcmBuffer, lostMeanwhile: bool)
      returns (r: Result<nat, OutputError>)
      requires Valid() && workspace.Valid()
      requires workspace.filter != chain.previousFrame && workspace.scratch != chain.previousFrame
      modifies chain`resamplePosition, chain`hasPreviousFrame, chain.previousFrame
      modifies workspace.filter, workspace.scratch, workspace.output, adapter
      ensures Valid()
      ensures var (v, outcome) := SubmitValue(old(Value()), decoded, frames, old(RegionsOf(workspace)),
                lostMeanwhile, Surroundings());
              Value() == v && r == Written(outcome)
      ensures workspace.filter[..] == FilterAfter(old(Value()), decoded, frames, old(workspace.filter[..]))
    {
      hide Chain.Process, Chain.Region;
      match binding.Status()
      case LostDevice => return Err(Lost);
      case ClosedBinding => return Err(Closed);
      case Active =>
      ghost var before, region := chain.Value(), workspace.filter[..];
      var written := chain.ProcessToOutput(decoded, frames, workspace);
      if written.Err? {
        return Err(FilterFailed(written.error));
      }
      ghost var n := WholeFrameBlock(before, decoded, frames, region, workspace.scratch.Length,
                                     workspace.output.Length, chain.target);
      r := Emit(written.value, n, workspace, lostMeanwhile);
    }

    /** submit_workspace: the block is in the workspace's decode region. */
    method SubmitWorkspace(workspace: PcmBuffer, frames: nat, lostMeanwhile: bool) returns (r: Result<nat, OutputError>)
      requires Valid() && workspace.Valid()
      requires workspace.filter != chain.previousFrame && workspace.scratch != chain.previousFrame
      modifies chain`resamplePosition, chain`hasPreviousFrame, chain.previousFrame
      modifies workspace.filter, workspace.scratch, workspace.output, adapter
      ensures Valid()
      ensures var (v, filter, outcome) := FromWorkspace(old(Value()), old(workspace.decode[..]), frames,
                                                        old(RegionsOf(workspace)), lostMeanwhile, Surroundings());
              Value() == v && workspace.filter[..] == filter && r == Written(outcome)
    {
      hide Chain.Process, Chain.Region;
      match binding.Status()
      case LostDevice => return Err(Lost);
      case ClosedBinding => return Err(Closed);
      case Active =>
      ghost var before, region, decode := chain.Value(), workspace.filter[..], workspace.decode[..];
      var written := chain.ProcessWorkspace(workspace, frames);
      assert frames * chain.decodeSpec.channels <= workspace.decode.Length ==>
        decode[..frames * chain.decodeSpec.channels] == old(workspace.decode[..frames * chain.decodeSpec.channels]);
      if written.Err? {
        return Err(FilterFailed(written.error));
      }
      ghost var n := WholeFrameBlock(before, decode[..frames * chain.decodeSpec.channels], frames, region,
                                     workspace.scratch.Length, workspace.output.Length, chain.target);
      r := Emit(written.value, n, workspace, lostMeanwhile);
    }

    /** The common tail: wrap the encoded bytes and write them. */
    method Emit(written: nat, ghost n: nat, workspace: PcmBuffer,
                lostMeanwhile: bool) returns (r: Result<nat, OutputError>)
      requires Valid() && binding.Status() == Active && written <= workspace.output.Length
      requires written == n * chain.outputSpec.BytesPerFrame() <= USIZE_MAX
      modifies adapter
      ensures r == if lostMeanwhile then Err(Lost) else Ok(written)
      ensures adapter.lost == lostMeanwhile
      ensures adapter.writes == old(adapter.writes)
                + (if lostMeanwhile || adapter.discard then [] else [workspace.output[..written]])
    {
      var frameBytes := plan.targetSpec.BytesPerFrame();
      FrameBytesPositive(plan.targetSpec);
      DivModUnique(written, frameBytes, n, 0);
      var block := NewBlock(plan.targetSpec, written / frameBytes, workspace.output[..written]);
      // the length check of the block cannot fail
      assert block.Ok?;
      if lostMeanwhile {
        adapter.SetLost(true);
      }
      var sent := binding.Write(block.value);
      if sent.Err? {
        return Err(sent.error);
      }
      return Ok(written);
    }

    /** rebind: a fresh plan and binding, or no change at all. */
    method Rebind(discovered: Option<Snapshot>) returns (r: Result<(), OutputError>)
      requires Valid()
      modifies this, binding, chain, chain.previousFrame
      ensures Valid()
      ensures var (v, result) := RebindValue(old(Value()), discovered, Surroundings());
              && Value() == v
              && match result
                 case Err(e) => r == Err(e) && binding == old(binding)
                 case Ok(_) => r == Ok(()) && fresh(binding) && old(binding).closed
    {
      hide PlanOutput, BindCheck;
      if discovered.None? {
        return Err(Discovery);
      }
      var next := PlanOutputLoop(discovered.value, chain.decodeSpec, preferences);
      if next.Err? {
        return Err(Planning(next.error));
      }
      PlanFormat(discovered.value, chain.decodeSpec, preferences);
      var rebound := adapter.Bind(next.value);
      if rebound.Err? {
        return Err(Binding(rebound.error));
      }
      assert rebound.value.spec == next.value.targetSpec && rebound.value.deviceId == next.value.deviceId;
      binding.Close();
      binding := rebound.value;
      chain.ReconfigureOutput(next.value.targetSpec);
      plan := next.value;
      return Ok(());
    }
  }

  /** What a submission sees of a workspace besides the decoded samples. */
  ghost function RegionsOf(w: PcmBuffer): Regions
    reads w.filter
  {
    Regions(w.filter[..], w.scratch.Length, w.output.Length)
  }

  /** submit_workspace: the input checks come between the status check and the chain. */
  function FromWorkspace(v: SessionValue, decode: seq<real>, frames: nat, w: Regions, lostMeanwhile: bool,
                         around: Around)
    : (r: (SessionValue, seq<real>, Result<seq<Byte>, OutputError>))
    requires v.Agrees()
    ensures r.0.Agrees() && |r.1| == |w.filter|
  {
    var samples := frames * v.chain.decodeSpec.channels;
    if v.Status() != Active then (v, w.filter, Submitted(v.Status(), Err(InputFormat), false))
    else if samples > USIZE_MAX then (v, w.filter, Err(FilterFailed(InputFormat)))
    else if samples > |decode| then (v, w.filter, Err(FilterFailed(WorkspaceTooSmall(samples, |decode|))))
    else
      var (next, outcome) := SubmitValue(v, decode[..samples], frames, w, lostMeanwhile, around);
      (next, FilterAfter(v, decode[..samples], frames, w.filter), outcome)
  }

  /** Every plan's target format is a valid interleaved one. */
  lemma PlanFormat(s: Snapshot, source: SampleSpec, preferences: seq<Preference>)
    requires PlanOutput(s, source, preferences).Ok?
    ensures PlanOutput(s, source, preferences).value.targetSpec.Valid()
    ensures PlanOutput(s, source, preferences).value.targetSpec.interleave == Interleaved
  {
    hide PlanOutput;
    var d, m := PlanOrigin(s, source, preferences);
  }

  // -------------------------------------------------------------- whole runs

  /** What a session's owner and its device may do. */
  datatype Step =
    | SubmitStep(decoded: seq<real>, frames: nat, lostMeanwhile: bool)
    | RebindStep(discovered: Option<Snapshot>)
    | DeviceStep(lost: bool)

  /** What came of a step: the answer to a submission with the format then bound, or
      to a rebind. */
  datatype StepResult =
    | SubmitResult(spec: SampleSpec, outcome: Result<seq<Byte>, OutputError>)
    | RebindResult(result: Result<Plan, OutputError>)
    | DeviceResult

  /** A session with the filter region of its owner's workspace. */
  datatype Running = Running(session: SessionValue, filter: seq<real>)

  function Stepped(s: Running, step: Step, room: nat, outputLength: nat, around: Around): (r: (Running, StepResult))
    requires s.session.Agrees()
    ensures r.0.session.Agrees()
  {
    match step
    case DeviceStep(lost) => (s.(session := s.session.(lost := lost)), DeviceResult)
    case RebindStep(discovered) =>
      var (v, result) := RebindValue(s.session, discovered, around);
      (s.(session := v), RebindResult(result))
    case SubmitStep(decoded, frames, lostMeanwhile) =>
      var (v, outcome) := SubmitValue(s.session, decoded, frames, Regions(s.filter, room, outputLength),
          lostMeanwhile, around);
      (Running(v, FilterAfter(s.session, decoded, frames, s.filter)), SubmitResult(s.session.plan.targetSpec, outcome))
  }

  /** A whole run. */
  function SessionRun(s: Running, steps: seq<Step>, room: nat, outputLength: nat, around: Around)
    : (r: (Running, seq<StepResult>))
    requires s.session.Agrees()
    ensures r.0.session.Agrees() && |r.1| == |steps|
  {
    if |steps| == 0 then (s, [])
    else
      var (before, results) := SessionRun(s, steps[..|steps| - 1], room, outputLength, around);
      var (after, result) := Stepped(before, steps[|steps| - 1], room, outputLength, around);
      (after, results + [result])
  }

  predicate WholeBlock(spec: SampleSpec, data: seq<Byte>) {
    spec.Valid() && |data| % Positive(spec) == 0
  }

  /** A successful submission appends one block, of whole frames of the format bound
      at that step, while the binding was active; every other step appends nothing. */
  lemma StepDelivers(s: Running, step: Step, room: nat, outputLength: nat, around: Around)
    requires s.session.Agrees()
    ensures var (u, result) := Stepped(s, step, room, outputLength, around);
            if result.SubmitResult? && result.outcome.Ok? then
              && step.SubmitStep? && s.session.Status() == Active && !step.lostMeanwhile
              && result.spec == s.session.chain.outputSpec && WholeBlock(result.spec, result.outcome.value)
              && u.session.writes == s.session.writes + (if around.discard then [] else [result.outcome.value])
            else u.session.writes == s.session.writes
  {
    hide Chain.Process, Replanned, Chain.Region;
    var (u, result) := Stepped(s, step, room, outputLength, around);
    if result.SubmitResult? && result.outcome.Ok? {
      var n := WholeFrameBlock(s.session.chain, step.decoded, step.frames, s.filter, room, outputLength, around.target);
      FrameBytesPositive(result.spec);
      DivModUnique(|result.outcome.value|, result.spec.BytesPerFrame(), n, 0);
    }
  }

  /** The blocks of the successful submissions, in order. */
  function BlocksOf(results: seq<StepResult>): seq<seq<Byte>> {
    if |results| == 0 then []
    else
      var last := results[|results| - 1];
      BlocksOf(results[..|results| - 1])
      + (if last.SubmitResult? && last.outcome.Ok? then [last.outcome.value] else [])
  }

  /** The k-th answer is the one given in the state k steps lead to. */
  lemma {:induction false} ResultAt(s: Running, steps: seq<Step>, room: nat, outputLength: nat, around: Around, k: nat)
    requires s.session.Agrees() && k < |steps|
    ensures SessionRun(s, steps, room, outputLength, around).1[k]
         == Stepped(SessionRun(s, steps[..k], room, outputLength, around).0, steps[k], room, outputLength, around).1
    decreases |steps|
  {
    hide Stepped;
    var n := |steps| - 1;
    if k < n {
      ResultAt(s, steps[..n], room, outputLength, around, k);
      assert steps[..n][..k] == steps[..k];
    }
  }

  lemma {:induction false} WritesAfter(s: Running, steps: seq<Step>, room: nat, outputLength: nat, around: Around)
    requires s.session.Agrees() && !around.discard
    ensures var (u, results) := SessionRun(s, steps, room, outputLength, around);
            u.session.writes == s.session.writes + BlocksOf(results)
    decreases |steps|
  {
    hide Stepped, WholeBlock;
    if |steps| == 0 {
      assert s.session.writes + [] == s.session.writes;
    } else {
      var n := |steps| - 1;
      WritesAfter(s, steps[..n], room, outputLength, around);
      var (before, earlier) := SessionRun(s, steps[..n], room, outputLength, around);
      var (u, results) := SessionRun(s, steps, room, outputLength, around);
      StepDelivers(before, steps[n], room, outputLength, around);
      assert results[..n] == earlier;
    }
  }

  /** Over every run the device got exactly the blocks of the successful submissions,
      each whole frames of the format in force when it was submitted, which was then
      the plan's and the chain's, on an active binding. */
  lemma RunDelivers(s: Running, steps: seq<Step>, room: nat, outputLength: nat, around: Around, k: nat)
    requires s.session.Agrees() && !around.discard && k < |steps|
    ensures var (u, results) := SessionRun(s, steps, room, outputLength, around);
            && u.session.writes == s.session.writes + BlocksOf(results)
            && var at := SessionRun(s, steps[..k], room, outputLength, around).0;
            && at.session.plan.targetSpec == at.session.chain.outputSpec
            && (steps[k].SubmitStep? <==> results[k].SubmitResult?)
            && (results[k].SubmitResult? ==> results[k].spec == at.session.chain.outputSpec)
            && (results[k].SubmitResult? && results[k].outcome.Ok? ==>
                  at.session.Status() == Active && WholeBlock(results[k].spec, results[k].outcome.value))
  {
    hide Stepped, WholeBlock, SessionRun;
    WritesAfter(s, steps, room, outputLength, around);
    ResultAt(s, steps, room, outputLength, around, k);
    var at := SessionRun(s, steps[..k], room, outputLength, around).0;
    StepDelivers(at, steps[k], room, outputLength, around);
    StepFormat(at, steps[k], room, outputLength, around);
  }

  lemma StepFormat(s: Running, step: Step, room: nat, outputLength: nat, around: Around)
    requires s.session.Agrees()
    ensures var result := Stepped(s, step, room, outputLength, around).1;
            (step.SubmitStep? <==> result.SubmitResult?)
            && (result.SubmitResult? ==> result.spec == s.session.chain.outputSpec)
  {
  }

  /** One step on the objects. */
  method TakeStep(session: OutputSession, step: Step,
                  workspace: PcmBuffer) returns (told: seq<Result<nat, OutputError>>)
    requires session.Valid() && workspace.Valid()
    requires workspace.filter != session.chain.previousFrame && workspace.scratch != session.chain.previousFrame
    modifies session, session.binding, session.chain, session.chain.previousFrame, session.adapter
    modifies workspace.filter, workspace.scratch, workspace.output
    ensures session.Valid() && (session.binding == old(session.binding) || fresh(session.binding))
    ensures var (after, result) := Stepped(old(Running(session.Value(), workspace.filter[..])), step,
                                     workspace.scratch.Length, workspace.output.Length, session.Surroundings());
            Running(session.Value(), workspace.filter[..]) == after && told == Told(result)
  {
    hide SubmitValue, RebindValue, FilterAfter;
    told := [];
    match step
    case DeviceStep(lost) => session.adapter.SetLost(lost);
    case RebindStep(discovered) => var _ := session.Rebind(discovered);
    case SubmitStep(decoded, frames, lostMeanwhile) =>
      var r := session.Submit(decoded, frames, workspace, lostMeanwhile);
      told := [r];
  }

  /** Any run of an open session computes that function, and keeps chain, plan and
      binding in agreement. */
  method RunSession(session: OutputSession, steps: seq<Step>, workspace: PcmBuffer)
    returns (told: seq<Result<nat, OutputError>>)
    requires session.Valid() && workspace.Valid()
    requires workspace.filter != session.chain.previousFrame && workspace.scratch != session.chain.previousFrame
    modifies session, session.binding, session.chain, session.chain.previousFrame, session.adapter
    modifies workspace.filter, workspace.scratch, workspace.output
    ensures session.Valid()
    ensures var (end, answers) := SessionRun(old(Running(session.Value(), workspace.filter[..])), steps,
                                    workspace.scratch.Length, workspace.output.Length, session.Surroundings());
            Running(session.Value(), workspace.filter[..]) == end && told == AllTold(answers)
  {
    hide Stepped, Told;
    told := [];
    ghost var start := Running(session.Value(), workspace.filter[..]);
    ghost var room, length, around := workspace.scratch.Length, workspace.output.Length, session.Surroundings();
    for i := 0 to |steps|
      invariant session.Valid()
      invariant session.binding == old(session.binding) || fresh(session.binding)
      invariant var (now, answers) := SessionRun(start, steps[..i], room, length, around);
                Running(session.Value(), workspace.filter[..]) == now && told == AllTold(answers)
    {
      assert steps[..i + 1][..i] == steps[..i];
      ghost var (now, answers) := SessionRun(start, steps[..i], room, length, around);
      ToldThen(answers, Stepped(now, steps[i], room, length, around).1);
      var more := TakeStep(session, steps[i], workspace);
      told := told + more;
    }
    assert steps[..|steps|] == steps;
  }

  /** What the submitter is told. */
  function Told(result: StepResult): seq<Result<nat, OutputError>> {
    if result.SubmitResult? then [Written(result.outcome)] else []
  }

  function AllTold(results: seq<StepResult>): seq<Result<nat, OutputError>> {
    if |results| == 0 then [] else AllTold(results[..|results| - 1]) + Told(results[|results| - 1])
  }

  lemma ToldThen(results: seq<StepResult>, last: StepResult)
    ensures AllTold(results + [last]) == AllTold(results) + Told(last)
  {
    assert (results + [last])[..|results|] == results;
  }
}

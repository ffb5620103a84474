/** Output planning: crates/around-engine/src/output_plan.rs. */
module OutputPlan {
  import opened Pcm
  import opened PlanOrder

  // ------------------------------------------------------------ capabilities

  datatype Category = Bluetooth | Usb | Onboard | OtherCategory

  datatype RateRange = RateRange(min: U32, max: U32)
  {
    predicate Contains(rate: U32) { min <= rate <= max }
  }

  datatype Mode = Mode(
    id: U32, channels: U16, encoding: PcmEncoding, rates: RateRange, defaultRate: U32, isDefault: bool,
    qualityRank: U16)
  {
    /** spec_at. */
    function SpecAt(rate: U32): Result<SampleSpec, PlanError> {
      if !rates.Contains(rate) then Err(NoMode)
      else if channels >= 0x100 then Err(UnsupportedChannels(channels))
      else match NewSpec(rate, channels, encoding, Interleaved, Native)
           case Ok(spec) => Ok(spec)
           case Err(_) => Err(InvalidCapabilities)
    }
  }

  datatype Device = Device(id: string, name: string, category: Category, priority: int, modes: seq<Mode>)

  datatype Snapshot = Snapshot(revision: U64, devices: seq<Device>)

  datatype Selector = ExactDevice(id: string) | Name(name: string) | InCategory(category: Category) | AnyDevice
  {
    predicate Matches(d: Device) {
      match this
      case ExactDevice(id) => d.id == id
      case Name(name) => d.name == name
      case InCategory(c) => d.category == c
      case AnyDevice => true
    }
  }

  datatype ModePreference =
    | AnyMode
    | AtRate(rate: U32)
    | InEncoding(encoding: PcmEncoding)
    | ExactMode(rate: U32, encoding: PcmEncoding, channels: U8)

  datatype RecoveryPolicy = ContinueOnFallback | PauseOnFallback | Stop

  datatype Preference = Preference(selector: Selector, mode: ModePreference, recovery: RecoveryPolicy)

  datatype PlanError =
    | NoDevice | NoMode | UnsupportedChannels(channels: U16) | InvalidPreference | InvalidCapabilities

  // ---------------------------------------------------------- conversion loss

  datatype Loss = Loss(rate: U32, channels: U32, interleave: U32, encoding: U32, byteOrder: U32)
  {
    function Total(): U32 {
      SaturatingAdd(SaturatingAdd(SaturatingAdd(SaturatingAdd(rate, channels), interleave), encoding), byteOrder)
    }
  }

  const U32_MAX: U32 := 0xFFFF_FFFF

  function SaturatingAdd(a: U32, b: U32): U32 {
    if a + b > U32_MAX then U32_MAX else a + b
  }

  function Saturate(n: nat): U32 {
    if n > U32_MAX then U32_MAX else n
  }

  function RateLoss(input: U32, output: U32): U32 {
    if input > output then Saturate((input - output) * 100 / 1000) else Saturate((output - input) * 10 / 1000)
  }

  function ChannelLoss(input: U8, output: U8): U32 {
    if input > output then (input - output) * 80 else (output - input) * 5
  }

  function EncodingLoss(input: PcmEncoding, output: PcmEncoding): (l: U32)
    ensures l <= 76
  {
    if input == output then 0
    else
      var bits := if input.Bits() < output.Bits() then output.Bits() - input.Bits() else input.Bits() - output.Bits();
      if input.IsFloat() != output.IsFloat() || input.IsSigned() != output.IsSigned() then 20 + bits else bits
  }

  function ConversionLoss(input: SampleSpec, output: SampleSpec): Loss {
    Loss(RateLoss(input.sampleRate, output.sampleRate), ChannelLoss(input.channels, output.channels),
         if input.interleave != output.interleave then 1 else 0,
         EncodingLoss(input.encoding, output.encoding),
         if input.byteOrder != output.byteOrder then 1 else 0)
  }

  /** Neither the narrowing nor any of the additions ever saturates. */
  lemma LossNeverSaturates(input: SampleSpec, output: SampleSpec)
    ensures var l := ConversionLoss(input, output);
            && l.Total() == l.rate + l.channels + l.interleave + l.encoding + l.byteOrder < U32_MAX
            && l.rate == (if input.sampleRate > output.sampleRate
                          then (input.sampleRate - output.sampleRate) * 100 / 1000
                          else (output.sampleRate - input.sampleRate) * 10 / 1000)
  {
  }

  // ---------------------------------------------------------------- planning

  datatype Plan = Plan(
    revision: U64, deviceId: string, modeId: U32, targetSpec: SampleSpec, preferenceIndex: nat, devicePriority: int,
    qualityRank: U16, isDefault: bool, loss: Loss, recovery: RecoveryPolicy)

  /** compare_plan's tuple; Reverse is negation. */
  function Key(p: Plan): seq<seq<int>> {
    [[p.preferenceIndex], [-p.devicePriority], [p.loss.Total()], [-(p.qualityRank as int)],
     [if p.isDefault then -1 else 0], [-(p.targetSpec.sampleRate as int)], Codes(p.deviceId), [p.modeId]]
  }

  function ComparePlan(l: Plan, r: Plan): Ordering {
    Compare(Key(l), Key(r))
  }

  predicate ValidMode(m: Mode) {
    m.channels != 0 && m.rates.min != 0 && m.rates.max >= m.rates.min
  }

  predicate ValidSnapshot(s: Snapshot) {
    && (forall i | 0 <= i < |s.devices| - 1 :: CompareInts(Codes(s.devices[i].id), Codes(s.devices[i + 1].id)) == Less)
    && (forall d | d in s.devices :: |d.id| > 0 && forall m | m in d.modes :: ValidMode(m))
  }

  /** The rates a mode offers for a preference: the exact one, or the source
      rate, the requested rate, the default and both ends, in range, no repeats. */
  function AddRate(rates: seq<U32>, range: RateRange, rate: U32): seq<U32> {
    if range.Contains(rate) && rate !in rates then rates + [rate] else rates
  }

  function CandidateRates(range: RateRange, source: U32, requested: Option<U32>, default: U32): seq<U32> {
    var r0 := AddRate([], range, source);
    var r1 := if requested.Some? then AddRate(r0, range, requested.value) else r0;
    AddRate(AddRate(AddRate(r1, range, default), range, range.min), range, range.max)
  }

  function Requested(p: ModePreference): Option<U32> {
    match p
    case AtRate(rate) => Some(rate)
    case ExactMode(rate, _, _) => Some(rate)
    case _ => None
  }

  predicate AcceptsMode(p: ModePreference, m: Mode) {
    match p
    case AnyMode => true
    case AtRate(_) => true
    case InEncoding(encoding) => m.encoding == encoding
    case ExactMode(rate, encoding, channels) =>
      m.encoding == encoding && m.channels == channels && m.rates.Contains(rate)
  }

  function RatesFor(p: ModePreference, m: Mode, source: U32): seq<U32> {
    if p.ExactMode? then [p.rate] else CandidateRates(m.rates, source, Requested(p), m.defaultRate)
  }

  lemma RatesAreOffered(p: ModePreference, m: Mode, source: U32)
    requires AcceptsMode(p, m) && ValidMode(m)
    ensures |RatesFor(p, m, source)| > 0
    ensures forall r | r in RatesFor(p, m, source) :: m.rates.Contains(r)
  {
  }

  /** What the planner is asked, apart from the devices' modes. */
  datatype Query = Query(revision: U64, source: SampleSpec, preferences: seq<Preference>)

  function MakePlan(q: Query, i: nat, d: Device, m: Mode, rate: U32): Plan
    requires i < |q.preferences| && 1 <= m.channels <= 32
  {
    var spec := SampleSpec(rate, m.channels, m.encoding, Interleaved, Native);
    Plan(q.revision, d.id, m.id, spec, i, d.priority, m.qualityRank, m.isDefault,
         ConversionLoss(q.source, spec), q.preferences[i].recovery)
  }

  predicate Matched(q: Query, i: nat, d: Device, m: Mode)
    requires i < |q.preferences|
  {
    q.preferences[i].selector.Matches(d) && AcceptsMode(q.preferences[i].mode, m)
  }

  /** One mode's candidates: all of them, or the error of its first rate. */
  function ModePlans(q: Query, i: nat, d: Device, m: Mode): (r: Result<seq<Plan>, PlanError>)
    requires i < |q.preferences|
  {
    if !Matched(q, i, d, m) then Ok([])
    else RatePlans(q, i, d, m, RatesFor(q.preferences[i].mode, m, q.source.sampleRate))
  }

  function RatePlans(q: Query, i: nat, d: Device, m: Mode, rates: seq<U32>): (r: Result<seq<Plan>, PlanError>)
    requires i < |q.preferences|
  {
    if |rates| == 0 then Ok([])
    else
      var n := |rates| - 1;
      match RatePlans(q, i, d, m, rates[..n])
      case Err(e) => Err(e)
      case Ok(plans) =>
        match m.SpecAt(rates[n])
        case Err(e) => Err(e)
        case Ok(spec) => Ok(plans + [MakePlan(q, i, d, m, rates[n])])
  }

  function Then(a: Result<seq<Plan>, PlanError>, b: Result<seq<Plan>, PlanError>): Result<seq<Plan>, PlanError> {
    if a.Err? then a else if b.Err? then b else Ok(a.value + b.value)
  }

  function ModesPlans(q: Query, i: nat, d: Device, modes: seq<Mode>): Result<seq<Plan>, PlanError>
    requires i < |q.preferences|
  {
    if |modes| == 0 then Ok([])
    else Then(ModesPlans(q, i, d, modes[..|modes| - 1]), ModePlans(q, i, d, modes[|modes| - 1]))
  }

  function DevicesPlans(q: Query, i: nat, devices: seq<Device>): Result<seq<Plan>, PlanError>
    requires i < |q.preferences|
  {
    if |devices| == 0 then Ok([])
    else
      var d := devices[|devices| - 1];
      Then(DevicesPlans(q, i, devices[..|devices| - 1]), ModesPlans(q, i, d, d.modes))
  }

  function AllPlans(q: Query, devices: seq<Device>, count: nat): Result<seq<Plan>, PlanError>
    requires count <= |q.preferences|
  {
    if count == 0 then Ok([])
    else Then(AllPlans(q, devices, count - 1), DevicesPlans(q, count - 1, devices))
  }

  /** The first plan no later one beats. */
  function Best(plans: seq<Plan>): Option<Plan> {
    if |plans| == 0 then None else Better(Best(plans[..|plans| - 1]), plans[|plans| - 1])
  }

  function Better(best: Option<Plan>, candidate: Plan): Option<Plan> {
    if best.None? || ComparePlan(candidate, best.value) == Less then Some(candidate) else best
  }

  /** plan_output. */
  function PlanOutput(s: Snapshot, source: SampleSpec, preferences: seq<Preference>): Result<Plan, PlanError> {
    if !ValidSnapshot(s) then Err(InvalidCapabilities)
    else if |preferences| == 0 then Err(InvalidPreference)
    else
      match AllPlans(Query(s.revision, source, preferences), s.devices, |preferences|)
      case Err(e) => Err(e)
      case Ok(plans) =>
        match Best(plans)
        case None => Err(NoDevice)
        case Some(p) => Ok(p)
  }

  /** The best plan after more of them, unless one could not be made. */
  function Continued(seen: seq<Plan>, more: Result<seq<Plan>, PlanError>): Result<Option<Plan>, PlanError> {
    if more.Err? then Err(more.error) else Ok(Best(seen + more.value))
  }

  // ------------------------------------------------------------- the loops

  lemma BestAppend(a: seq<Plan>, last: Plan)
    ensures Best(a + [last]) == Better(Best(a), last)
  {
    assert (a + [last])[..|a|] == a;
  }

  method Validate(s: Snapshot) returns (r: Result<(), PlanError>)
    ensures r == if ValidSnapshot(s) then Ok(()) else Err(InvalidCapabilities)
  {
    for i := 0 to (if |s.devices| == 0 then 0 else |s.devices| - 1)
      invariant forall k | 0 <= k < i :: CompareInts(Codes(s.devices[k].id), Codes(s.devices[k + 1].id)) == Less
    {
      if CompareInts(Codes(s.devices[i].id), Codes(s.devices[i + 1].id)) != Less {
        return Err(InvalidCapabilities);
      }
    }
    for i := 0 to |s.devices|
      invariant forall k | 0 <= k < i :: |s.devices[k].id| > 0 && forall m | m in s.devices[k].modes :: ValidMode(m)
    {
      if |s.devices[i].id| == 0 {
        assert s.devices[i] in s.devices;
        return Err(InvalidCapabilities);
      }
      for j := 0 to |s.devices[i].modes|
        invariant forall k | 0 <= k < j :: ValidMode(s.devices[i].modes[k])
      {
        if !ValidMode(s.devices[i].modes[j]) {
          assert s.devices[i].modes[j] in s.devices[i].modes;
          return Err(InvalidCapabilities);
        }
      }
    }
    return Ok(());
  }

  /** The rates worth trying: those of the five that the mode offers. */
  predicate WorthTrying(range: RateRange, source: U32, requested: Option<U32>, default: U32, rate: U32) {
    range.Contains(rate)
    && (rate == source || requested == Some(rate) || rate == default || rate == range.min || rate == range.max)
  }

  predicate NoRateTwice(rates: seq<U32>) {
    forall i, j | 0 <= i < j < |rates| :: rates[i] != rates[j]
  }

  /** candidates(): pushes to a vector. It holds each rate worth trying once, and
      nothing else. */
  method Candidates(range: RateRange, source: U32, requested: Option<U32>, default: U32) returns (rates: seq<U32>)
    ensures rates == CandidateRates(range, source, requested, default)
    ensures NoRateTwice(rates) && |rates| <= 5
    ensures forall rate: U32 :: rate in rates <==> WorthTrying(range, source, requested, default, rate)
  {
    rates := AddRate([], range, source);
    if requested.Some? {
      rates := AddRate(rates, range, requested.value);
    }
    rates := AddRate(rates, range, default);
    rates := AddRate(rates, range, range.min);
    rates := AddRate(rates, range, range.max);
  }

  /** The rate loop: every rate of a matched mode against the best so far. */
  method PlanRates(q: Query, i: nat, d: Device, m: Mode, rates: seq<U32>, start: Option<Plan>, ghost seen: seq<Plan>)
    returns (r: Result<Option<Plan>, PlanError>)
    requires i < |q.preferences| && start == Best(seen)
    ensures r == Continued(seen, RatePlans(q, i, d, m, rates))
  {
    hide Best, ComparePlan, MakePlan;
    var best := start;
    ghost var plans: seq<Plan> := [];
    assert seen + plans == seen;
    for k := 0 to |rates|
      invariant RatePlans(q, i, d, m, rates[..k]) == Ok(plans)
      invariant best == Best(seen + plans)
    {
      assert rates[..k + 1][..k] == rates[..k];
      var spec := m.SpecAt(rates[k]);
      if spec.Err? {
        RatePlansPrefix(q, i, d, m, rates, k + 1);
        return Err(spec.error);
      }
      var candidate := MakePlan(q, i, d, m, rates[k]);
      BestAppend(seen + plans, candidate);
      assert (seen + plans) + [candidate] == seen + (plans + [candidate]);
      if best.None? || ComparePlan(candidate, best.value) == Less {
        best := Some(candidate);
      }
      plans := plans + [candidate];
    }
    assert rates[..|rates|] == rates;
    return Ok(best);
  }

  lemma {:induction false} RatePlansPrefix(q: Query, i: nat, d: Device, m: Mode, rates: seq<U32>, k: nat)
    requires i < |q.preferences| && k <= |rates| && RatePlans(q, i, d, m, rates[..k]).Err?
    ensures RatePlans(q, i, d, m, rates) == RatePlans(q, i, d, m, rates[..k])
    decreases |rates|
  {
    if k < |rates| {
      assert rates[..|rates| - 1][..k] == rates[..k];
      RatePlansPrefix(q, i, d, m, rates[..|rates| - 1], k);
    } else {
      assert rates[..k] == rates;
    }
  }

  /** The mode loop of one device. */
  method PlanModes(q: Query, i: nat, d: Device, start: Option<Plan>, ghost seen: seq<Plan>)
    returns (r: Result<Option<Plan>, PlanError>)
    requires i < |q.preferences| && start == Best(seen)
    ensures r == Continued(seen, ModesPlans(q, i, d, d.modes))
  {
    hide RatePlans, Best, RatesFor;
    var best := start;
    ghost var plans: seq<Plan> := [];
    assert seen + plans == seen;
    for k := 0 to |d.modes|
      invariant ModesPlans(q, i, d, d.modes[..k]) == Ok(plans) && best == Best(seen + plans)
    {
      var m := d.modes[k];
      assert d.modes[..k + 1][..k] == d.modes[..k];
      if !q.preferences[i].selector.Matches(d) || !AcceptsMode(q.preferences[i].mode, m) {
        UnmatchedMode(q, i, d, m);
        assert plans + [] == plans;
        continue;
      }
      var rates := RatesToTry(q.preferences[i].mode, m, q.source.sampleRate);
      MatchedMode(q, i, d, m);
      var step := PlanRates(q, i, d, m, rates, best, seen + plans);
      if step.Err? {
        ModesPlansPrefix(q, i, d, d.modes, k + 1);
        return Err(step.error);
      }
      best := step.value;
      ghost var more := ModePlans(q, i, d, m).value;
      assert (seen + plans) + more == seen + (plans + more);
      plans := plans + more;
    }
    assert d.modes[..|d.modes|] == d.modes;
    return Ok(best);
  }

  method RatesToTry(p: ModePreference, m: Mode, source: U32) returns (rates: seq<U32>)
    ensures rates == RatesFor(p, m, source)
  {
    if p.ExactMode? {
      return [p.rate];
    }
    rates := Candidates(m.rates, source, Requested(p), m.defaultRate);
  }

  lemma UnmatchedMode(q: Query, i: nat, d: Device, m: Mode)
    requires i < |q.preferences| && !Matched(q, i, d, m)
    ensures ModePlans(q, i, d, m) == Ok([])
  {
  }

  lemma MatchedMode(q: Query, i: nat, d: Device, m: Mode)
    requires i < |q.preferences| && Matched(q, i, d, m)
    ensures ModePlans(q, i, d, m) == RatePlans(q, i, d, m, RatesFor(q.preferences[i].mode, m, q.source.sampleRate))
  {
  }

  lemma {:induction false} ModesPlansPrefix(q: Query, i: nat, d: Device, modes: seq<Mode>, k: nat)
    requires i < |q.preferences| && k <= |modes| && ModesPlans(q, i, d, modes[..k]).Err?
    ensures ModesPlans(q, i, d, modes) == ModesPlans(q, i, d, modes[..k])
    decreases |modes|
  {
    if k < |modes| {
      assert modes[..|modes| - 1][..k] == modes[..k];
      ModesPlansPrefix(q, i, d, modes[..|modes| - 1], k);
    } else {
      assert modes[..k] == modes;
    }
  }

  /** The device loop of one preference. */
  method PlanDevices(q: Query, i: nat, devices: seq<Device>, start: Option<Plan>, ghost seen: seq<Plan>)
    returns (r: Result<Option<Plan>, PlanError>)
    requires i < |q.preferences| && start == Best(seen)
    ensures r == Continued(seen, DevicesPlans(q, i, devices))
  {
    hide ModesPlans, Best;
    var best := start;
    ghost var plans: seq<Plan> := [];
    assert seen + plans == seen;
    for k := 0 to |devices|
      invariant DevicesPlans(q, i, devices[..k]) == Ok(plans) && best == Best(seen + plans)
    {
      assert devices[..k + 1][..k] == devices[..k];
      if !q.preferences[i].selector.Matches(devices[k]) {
        UnmatchedDevice(q, i, devices[k], devices[k].modes);
        assert plans + [] == plans;
        continue;
      }
      var step := PlanModes(q, i, devices[k], best, seen + plans);
      if step.Err? {
        DevicesPlansPrefix(q, i, devices, k + 1);
        return Err(step.error);
      }
      best := step.value;
      ghost var more := ModesPlans(q, i, devices[k], devices[k].modes).value;
      assert (seen + plans) + more == seen + (plans + more);
      plans := plans + more;
    }
    assert devices[..|devices|] == devices;
    return Ok(best);
  }

  lemma {:induction false} UnmatchedDevice(q: Query, i: nat, d: Device, modes: seq<Mode>)
    requires i < |q.preferences| && !q.preferences[i].selector.Matches(d)
    ensures ModesPlans(q, i, d, modes) == Ok([])
    decreases |modes|
  {
    if |modes| > 0 {
      UnmatchedDevice(q, i, d, modes[..|modes| - 1]);
      UnmatchedMode(q, i, d, modes[|modes| - 1]);
      var none: seq<Plan> := [];
      assert none + none == none;
    }
  }

  lemma {:induction false} DevicesPlansPrefix(q: Query, i: nat, devices: seq<Device>, k: nat)
    requires i < |q.preferences| && k <= |devices| && DevicesPlans(q, i, devices[..k]).Err?
    ensures DevicesPlans(q, i, devices) == DevicesPlans(q, i, devices[..k])
    decreases |devices|
  {
    if k < |devices| {
      assert devices[..|devices| - 1][..k] == devices[..k];
      DevicesPlansPrefix(q, i, devices[..|devices| - 1], k);
    } else {
      assert devices[..k] == devices;
    }
  }

  lemma {:induction false} AllPlansPrefix(q: Query, devices: seq<Device>, k: nat, count: nat)
    requires k <= count <= |q.preferences| && AllPlans(q, devices, k).Err?
    ensures AllPlans(q, devices, count) == AllPlans(q, devices, k)
    decreases count
  {
    if k < count {
      AllPlansPrefix(q, devices, k, count - 1);
    }
  }

  /** plan_output: the nested loops keep the first least plan. */
  method PlanOutputLoop(s: Snapshot, source: SampleSpec,
                        preferences: seq<Preference>) returns (r: Result<Plan, PlanError>)
    ensures r == PlanOutput(s, source, preferences)
  {
    hide DevicesPlans, ValidSnapshot;
    var valid := Validate(s);
    if valid.Err? {
      return Err(valid.error);
    }
    if |preferences| == 0 {
      return Err(InvalidPreference);
    }
    var q := Query(s.revision, source, preferences);
    var best: Option<Plan> := None;
    ghost var plans: seq<Plan> := [];
    for k := 0 to |preferences|
      invariant AllPlans(q, s.devices, k) == Ok(plans) && best == Best(plans)
    {
      var step := PlanDevices(q, k, s.devices, best, plans);
      if step.Err? {
        AllPlansPrefix(q, s.devices, k + 1, |preferences|);
        return Err(step.error);
      }
      best := step.value;
      plans := plans + DevicesPlans(q, k, s.devices).value;
    }
    if best.None? {
      return Err(NoDevice);
    }
    return Ok(best.value);
  }
}

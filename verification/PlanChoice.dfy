/** What the planner prefers, in terms of devices, modes and formats:
    crates/around-engine/src/output_plan.rs:150-250 and 288-380. */
module PlanChoice {
  import opened Pcm
  import opened PlanOrder
  import opened OutputPlan
  import opened PlanLaws

  // --------------------------------------------------------------- what suits

  /** A device and a mode are what a preference asks for. */
  predicate Suits(pref: Preference, d: Device, m: Mode) {
    && (pref.selector.ExactDevice? ==> d.id == pref.selector.id)
    && (pref.selector.Name? ==> d.name == pref.selector.name)
    && (pref.selector.InCategory? ==> d.category == pref.selector.category)
    && (pref.mode.InEncoding? ==> m.encoding == pref.mode.encoding)
    && (pref.mode.ExactMode? ==>
          && m.encoding == pref.mode.encoding && m.channels == pref.mode.channels
          && m.rates.min <= pref.mode.rate <= m.rates.max)
  }

  lemma MatchedIsSuited(q: Query, i: nat, d: Device, m: Mode)
    requires i < |q.preferences|
    ensures Matched(q, i, d, m) <==> Suits(q.preferences[i], d, m)
  {
  }

  /** The plan is of a mode that suits its preference, at a rate the mode offers, in
      the mode's own format, and no earlier preference is suited by anything. */
  lemma PlanSuits(s: Snapshot, source: SampleSpec, preferences: seq<Preference>) returns (d: Device, m: Mode)
    requires PlanOutput(s, source, preferences).Ok?
    ensures var p := PlanOutput(s, source, preferences).value;
            && d in s.devices && m in d.modes && p.deviceId == d.id && p.modeId == m.id
            && p.preferenceIndex < |preferences| && Suits(preferences[p.preferenceIndex], d, m)
            && p.recovery == preferences[p.preferenceIndex].recovery && p.revision == s.revision
            && p.targetSpec.channels == m.channels && p.targetSpec.encoding == m.encoding
            && p.targetSpec.interleave == Interleaved && p.targetSpec.byteOrder == Native
            && m.rates.min <= p.targetSpec.sampleRate <= m.rates.max
            && (preferences[p.preferenceIndex].mode.ExactMode? ==>
                  p.targetSpec.sampleRate == preferences[p.preferenceIndex].mode.rate)
            && p.devicePriority == d.priority && p.qualityRank == m.qualityRank && p.isDefault == m.isDefault
            && p.loss == ConversionLoss(source, p.targetSpec)
    ensures forall i: nat, e, n | i < PlanOutput(s, source, preferences).value.preferenceIndex && e in s.devices
              && n in e.modes :: !Suits(preferences[i], e, n)
  {
    var q, p := Query(s.revision, source, preferences), PlanOutput(s, source, preferences).value;
    PlanIsLeast(s, source, preferences);
    d, m := CandidateParts(p, q, s.devices);
    MatchedIsSuited(q, p.preferenceIndex, d, m);
    ValidAndFit(s, source, preferences);
    RatesAreOffered(preferences[p.preferenceIndex].mode, m, source.sampleRate);
    hide Candidate, Suits, ConversionLoss, PlanOutput, RatesFor, ValidSnapshot, Matched;
    forall i: nat, e, n | i < p.preferenceIndex && e in s.devices && n in e.modes ensures !Suits(preferences[i], e, n) {
      if Suits(preferences[i], e, n) {
        var c := SuitedCandidate(s, source, preferences, i, e, n);
        Cascade(s, source, preferences, c);
      }
    }
  }

  lemma ValidAndFit(s: Snapshot, source: SampleSpec, preferences: seq<Preference>)
    requires PlanOutput(s, source, preferences).Ok?
    ensures ValidSnapshot(s) && AllFit(Query(s.revision, source, preferences), s.devices)
    ensures forall d | d in s.devices :: forall m | m in d.modes :: ValidMode(m)
  {
    PlansWithCandidates(s, source, preferences);
  }

  /** Every mode that suits stands for a candidate plan of its own. */
  lemma SuitedCandidate(s: Snapshot, source: SampleSpec, preferences: seq<Preference>, i: nat, d: Device, m: Mode)
    returns (c: Plan)
    requires PlanOutput(s, source, preferences).Ok? && i < |preferences|
    requires d in s.devices && m in d.modes && Suits(preferences[i], d, m)
    ensures Candidate(c, Query(s.revision, source, preferences), s.devices)
    ensures c.preferenceIndex == i && c.devicePriority == d.priority
    ensures c.targetSpec.sampleRate in RatesFor(preferences[i].mode, m, source.sampleRate)
  {
    ValidAndFit(s, source, preferences);
    var q := Query(s.revision, source, preferences);
    MatchedIsSuited(q, i, d, m);
    RatesAreOffered(preferences[i].mode, m, source.sampleRate);
    assert DeviceFits(q, i, d) && ModeFits(q, i, d, m);
    hide RatesFor, ConversionLoss, Matched, Suits, PlanOutput, AllFit;
    var rate := RatesFor(preferences[i].mode, m, source.sampleRate)[0];
    c := MakePlan(q, i, d, m, rate);
    assert FromMode(c, q, i, d, m) && FromDevice(c, q, i, d);
    assert FromPreference(c, q, i, s.devices);
  }

  // ---------------------------------------------------------------- the order

  /** Not after: by preference, then device priority, conversion loss, quality, default
      mode, rate, device name and mode number, each deciding only where all before tie. */
  predicate NotAfter(p: Plan, c: Plan) {
    && p.preferenceIndex <= c.preferenceIndex
    && (p.preferenceIndex == c.preferenceIndex ==>
          && p.devicePriority >= c.devicePriority
          && (p.devicePriority == c.devicePriority ==>
                && p.loss.Total() <= c.loss.Total()
                && (p.loss.Total() == c.loss.Total() ==>
                      && p.qualityRank >= c.qualityRank
                      && (p.qualityRank == c.qualityRank ==>
                            && (c.isDefault ==> p.isDefault)
                            && (p.isDefault == c.isDefault ==>
                                  && p.targetSpec.sampleRate >= c.targetSpec.sampleRate
                                  && (p.targetSpec.sampleRate == c.targetSpec.sampleRate ==> NameNotAfter(p, c)))))))
  }

  predicate NameNotAfter(p: Plan, c: Plan) {
    && CompareInts(Codes(p.deviceId), Codes(c.deviceId)) != Greater
    && (p.deviceId == c.deviceId ==> p.modeId <= c.modeId)
  }

  lemma KeySteps(a: seq<seq<int>>, b: seq<seq<int>>)
    requires |a| == |b| == 8 && Compare(a, b) != Greater
    ensures CompareInts(a[0], b[0]) != Greater
    ensures a[..1] == b[..1] ==> CompareInts(a[1], b[1]) != Greater
    ensures a[..2] == b[..2] ==> CompareInts(a[2], b[2]) != Greater
    ensures a[..3] == b[..3] ==> CompareInts(a[3], b[3]) != Greater
    ensures a[..4] == b[..4] ==> CompareInts(a[4], b[4]) != Greater
    ensures a[..5] == b[..5] ==> CompareInts(a[5], b[5]) != Greater
    ensures a[..6] == b[..6] ==> CompareInts(a[6], b[6]) != Greater
    ensures a[..7] == b[..7] ==> CompareInts(a[7], b[7]) != Greater
  {
    hide Compare, CompareInts;
    assert a[..0] == b[..0];
    forall k: nat | k < 8 && a[..k] == b[..k] ensures CompareInts(a[k], b[k]) != Greater {
      FirstDifference(a, b, k);
    }
  }

  lemma OneKey(x: int, y: int)
    ensures CompareInts([x], [y]) != Greater <==> x <= y
  {
  }

  lemma CascadeOf(p: Plan, c: Plan)
    requires ComparePlan(p, c) != Greater
    ensures NotAfter(p, c)
  {
    var a, b := Key(p), Key(c);
    KeySteps(a, b);
    hide Loss.Total, Codes, Compare, ComparePlan, CompareInts;
    OneKey(p.preferenceIndex, c.preferenceIndex);
    OneKey(-p.devicePriority, -c.devicePriority);
    OneKey(p.loss.Total(), c.loss.Total());
    OneKey(-(p.qualityRank as int), -(c.qualityRank as int));
    OneKey(if p.isDefault then -1 else 0, if c.isDefault then -1 else 0);
    OneKey(-(p.targetSpec.sampleRate as int), -(c.targetSpec.sampleRate as int));
    OneKey(p.modeId, c.modeId);
  }

  /** The plan is not after any candidate. */
  lemma Cascade(s: Snapshot, source: SampleSpec, preferences: seq<Preference>, c: Plan)
    requires PlanOutput(s, source, preferences).Ok?
    requires Candidate(c, Query(s.revision, source, preferences), s.devices)
    ensures NotAfter(PlanOutput(s, source, preferences).value, c)
  {
    PlanIsLeast(s, source, preferences);
    hide ComparePlan, PlanOutput, Candidate, NotAfter;
    CascadeOf(PlanOutput(s, source, preferences).value, c);
  }

  /** Of plans that tie in everything the first met stays. */
  lemma {:induction false} FirstOfTies(plans: seq<Plan>, i: nat)
    requires i < |plans|
    requires forall j | 0 <= j < |plans| :: ComparePlan(plans[j], plans[i]) != Less
    requires forall j | 0 <= j < i :: ComparePlan(plans[j], plans[i]) == Greater
    ensures Best(plans) == Some(plans[i])
    decreases |plans|
  {
    hide ComparePlan;
    var n := |plans| - 1;
    if i < n {
      FirstOfTies(plans[..n], i);
    } else if n > 0 {
      BestIsLeast(plans[..n]);
      var b := Best(plans[..n]).value;
      assert b in plans[..n];
      var k :| 0 <= k < n && plans[k] == b;
      ComparedBack(b, plans[n]);
    }
  }

  lemma ComparedBack(a: Plan, b: Plan)
    ensures ComparePlan(a, b) == Greater ==> ComparePlan(b, a) == Less
  {
    CompareFlip(Key(a), Key(b));
    hide Key;
  }

  // ------------------------------------------------------------ what a loss is

  /** Integers, signed or not, and floats are kinds of their own. */
  predicate SameKind(a: PcmEncoding, b: PcmEncoding) {
    a.IsFloat() == b.IsFloat() && a.IsSigned() == b.IsSigned()
  }

  function Apart(a: nat, b: nat): nat { if a < b then b - a else a - b }

  /** A dropped channel costs 80 and an added one 5; a bit of width more or less costs 1,
      and another kind of encoding 20 on top; layout and byte order cost 1 each. */
  lemma LossUnits(input: SampleSpec, output: SampleSpec, k: nat)
    ensures var l := ConversionLoss(input, output);
            && (input.channels == output.channels + k ==> l.channels == 80 * k)
            && (output.channels == input.channels + k ==> l.channels == 5 * k)
            && (input.encoding == output.encoding ==> l.encoding == 0)
            && (SameKind(input.encoding, output.encoding) ==>
                  l.encoding == Apart(input.encoding.Bits(), output.encoding.Bits()))
            && (!SameKind(input.encoding, output.encoding) ==>
                  l.encoding == 20 + Apart(input.encoding.Bits(), output.encoding.Bits()))
            && (input.interleave == output.interleave ==> l.interleave == 0)
            && (input.interleave != output.interleave ==> l.interleave == 1)
            && (input.byteOrder == output.byteOrder ==> l.byteOrder == 0)
            && (input.byteOrder != output.byteOrder ==> l.byteOrder == 1)
  {
  }

  lemma EncodingLosses()
    ensures EncodingLoss(F32, F64) == 32 && EncodingLoss(F32, I16) == 36 && EncodingLoss(I16, I24) == 8
    ensures EncodingLoss(I16, U16s) == 20 && EncodingLoss(U24s, F32) == 28 && EncodingLoss(I32, U8s) == 44
    ensures EncodingLoss(I64, I48) == 16 && EncodingLoss(F64, F64) == 0
  {
  }

  // ------------------------------------------------------------ what is chosen

  /** At the winning preference and priority no mode that suits costs less, at any rate
      it offers; for an exact preference, at the one asked for. */
  lemma CostsNoMore(s: Snapshot, source: SampleSpec, preferences: seq<Preference>, d: Device, m: Mode, rate: U32)
    requires PlanOutput(s, source, preferences).Ok?
    requires var p := PlanOutput(s, source, preferences).value;
             && p.preferenceIndex < |preferences| && Suits(preferences[p.preferenceIndex], d, m)
             && d in s.devices && d.priority == p.devicePriority && m in d.modes && m.rates.min <= rate <= m.rates.max
             && (preferences[p.preferenceIndex].mode.ExactMode? ==> rate == preferences[p.preferenceIndex].mode.rate)
    ensures 1 <= m.channels <= 32
    ensures PlanOutput(s, source, preferences).value.loss.Total()
         <= ConversionLoss(source, SampleSpec(rate, m.channels, m.encoding, Interleaved, Native)).Total()
  {
    var p, q := PlanOutput(s, source, preferences).value, Query(s.revision, source, preferences);
    var i := p.preferenceIndex;
    MatchedIsSuited(q, i, d, m);
    if preferences[i].mode.ExactMode? {
      ExactCandidate(s, source, preferences, i, d, m);
    } else {
      FiveRatesLoseNothing(s, source, preferences, d, m, rate);
    }
  }

  lemma ExactCandidate(s: Snapshot, source: SampleSpec, preferences: seq<Preference>, i: nat, d: Device, m: Mode)
    requires PlanOutput(s, source, preferences).Ok? && i < |preferences| && preferences[i].mode.ExactMode?
    requires i == PlanOutput(s, source, preferences).value.preferenceIndex && Suits(preferences[i], d, m)
    requires d in s.devices && m in d.modes && d.priority == PlanOutput(s, source, preferences).value.devicePriority
    ensures 1 <= m.channels <= 32
    ensures PlanOutput(s, source, preferences).value.loss.Total()
         <= ConversionLoss(source, SampleSpec(preferences[i].mode.rate, m.channels, m.encoding, Interleaved,
                                              Native)).Total()
  {
    var q := Query(s.revision, source, preferences);
    ValidAndFit(s, source, preferences);
    MatchedIsSuited(q, i, d, m);
    assert DeviceFits(q, i, d) && ModeFits(q, i, d, m);
    var rate := preferences[i].mode.rate;
    assert RatesFor(preferences[i].mode, m, source.sampleRate)[0] == rate;
    hide RatesFor, ConversionLoss, Matched, Suits, PlanOutput, AllFit, NotAfter;
    var c := MakePlan(q, i, d, m, rate);
    assert FromMode(c, q, i, d, m) && FromDevice(c, q, i, d);
    assert FromPreference(c, q, i, s.devices);
    Cascade(s, source, preferences, c);
    assert NotAfter(PlanOutput(s, source, preferences).value, c);
    NotDearer(PlanOutput(s, source, preferences).value, c);
  }

  lemma NotDearer(p: Plan, c: Plan)
    requires NotAfter(p, c) && p.preferenceIndex == c.preferenceIndex && p.devicePriority == c.devicePriority
    ensures p.loss.Total() <= c.loss.Total()
  {
  }

  /** A mode that suits, of a device of the winning priority, at the source's rate. */
  predicate AtSourceRate(s: Snapshot, source: SampleSpec, preferences: seq<Preference>, p: Plan, d: Device, m: Mode) {
    && p.preferenceIndex < |preferences| && Suits(preferences[p.preferenceIndex], d, m)
    && d in s.devices && d.priority == p.devicePriority && m in d.modes
    && m.rates.min <= source.sampleRate <= m.rates.max
  }

  /** Channels are not thrown away where a mode with up to fifteen more would do. */
  lemma ChannelsKept(s: Snapshot, source: SampleSpec, preferences: seq<Preference>, d: Device, m: Mode)
    requires PlanOutput(s, source, preferences).Ok?
    requires AtSourceRate(s, source, preferences, PlanOutput(s, source, preferences).value, d, m)
    requires m.encoding == source.encoding && source.channels <= m.channels <= source.channels + 15
    ensures PlanOutput(s, source, preferences).value.targetSpec.channels >= source.channels
  {
    var p := PlanOutput(s, source, preferences).value;
    var e, n := PlanSuits(s, source, preferences);
    if !preferences[p.preferenceIndex].mode.ExactMode? {
      CostsNoMore(s, source, preferences, d, m, source.sampleRate);
      var best := SampleSpec(source.sampleRate, m.channels, m.encoding, Interleaved, Native);
      LossNeverSaturates(source, best);
      LossNeverSaturates(source, p.targetSpec);
      LossUnits(source, best, m.channels - source.channels);
      LossUnits(source, p.targetSpec, Apart(source.channels, p.targetSpec.channels));
    }
  }

  /** Where the source's own format is offered, the plan has its channels and encoding,
      and a rate less than ten below and less than a hundred above. */
  lemma SourceFormatWins(s: Snapshot, source: SampleSpec, preferences: seq<Preference>, d: Device, m: Mode)
    requires PlanOutput(s, source, preferences).Ok?
    requires AtSourceRate(s, source, preferences, PlanOutput(s, source, preferences).value, d, m)
    requires m.encoding == source.encoding && m.channels == source.channels
    ensures var p := PlanOutput(s, source, preferences).value;
            && p.targetSpec.channels == source.channels && p.targetSpec.encoding == source.encoding
            && (!preferences[p.preferenceIndex].mode.ExactMode? ==>
                  source.sampleRate < p.targetSpec.sampleRate + 10 && p.targetSpec.sampleRate < source.sampleRate + 100)
  {
    var p := PlanOutput(s, source, preferences).value;
    var e, n := PlanSuits(s, source, preferences);
    if !preferences[p.preferenceIndex].mode.ExactMode? {
      CostsNoMore(s, source, preferences, d, m, source.sampleRate);
      var best := SampleSpec(source.sampleRate, m.channels, m.encoding, Interleaved, Native);
      LossNeverSaturates(source, best);
      LossNeverSaturates(source, p.targetSpec);
      LossUnits(source, best, 0);
      LossUnits(source, p.targetSpec, Apart(source.channels, p.targetSpec.channels));
      OnlyItselfIsFree(source.encoding, p.targetSpec.encoding);
    }
  }

  lemma OnlyItselfIsFree(a: PcmEncoding, b: PcmEncoding)
    ensures EncodingLoss(a, b) == 0 <==> a == b
  {
  }

  /** Where the source's rate and channels are offered in an encoding of its kind less
      than twenty bits away, the plan's encoding is of that kind, and no further away. */
  lemma KindKept(s: Snapshot, source: SampleSpec, preferences: seq<Preference>, d: Device, m: Mode)
    requires PlanOutput(s, source, preferences).Ok?
    requires AtSourceRate(s, source, preferences, PlanOutput(s, source, preferences).value, d, m)
    requires m.channels == source.channels && SameKind(source.encoding, m.encoding)
    requires Apart(source.encoding.Bits(), m.encoding.Bits()) < 20
    ensures var e := PlanOutput(s, source, preferences).value.targetSpec.encoding;
            && SameKind(source.encoding, e)
            && Apart(source.encoding.Bits(), e.Bits()) <= Apart(source.encoding.Bits(), m.encoding.Bits())
  {
    var p := PlanOutput(s, source, preferences).value;
    var e, n := PlanSuits(s, source, preferences);
    if !preferences[p.preferenceIndex].mode.ExactMode? {
      CostsNoMore(s, source, preferences, d, m, source.sampleRate);
      var best := SampleSpec(source.sampleRate, m.channels, m.encoding, Interleaved, Native);
      LossNeverSaturates(source, best);
      LossNeverSaturates(source, p.targetSpec);
      LossUnits(source, best, 0);
      LossUnits(source, p.targetSpec, 0);
    }
  }

  /** Going down in rate is ten times as dear as going up: where a mode of the source's
      channels and encoding offers a higher rate, the plan is at most a tenth of that way
      below the source's, up to rounding. */
  lemma UpRatherThanDown(s: Snapshot, source: SampleSpec, preferences: seq<Preference>, d: Device, m: Mode, rate: U32)
    requires PlanOutput(s, source, preferences).Ok?
    requires var p := PlanOutput(s, source, preferences).value;
             && p.preferenceIndex < |preferences| && Suits(preferences[p.preferenceIndex], d, m)
             && d in s.devices && d.priority == p.devicePriority && m in d.modes && m.rates.min <= rate <= m.rates.max
             && !preferences[p.preferenceIndex].mode.ExactMode?
    requires m.encoding == source.encoding && m.channels == source.channels && source.sampleRate <= rate
    ensures 10 * (source.sampleRate - PlanOutput(s, source, preferences).value.targetSpec.sampleRate)
          < rate - source.sampleRate + 100
  {
    var p := PlanOutput(s, source, preferences).value;
    var e, n := PlanSuits(s, source, preferences);
    CostsNoMore(s, source, preferences, d, m, rate);
    var best := SampleSpec(rate, m.channels, m.encoding, Interleaved, Native);
    LossNeverSaturates(source, best);
    LossNeverSaturates(source, p.targetSpec);
    LossUnits(source, best, 0);
  }

  const Mono: Mode := Mode(1, 1, F32, RateRange(48000, 48000), 48000, false, 0)
  const Quad: Mode := Mode(2, 4, F32, RateRange(48000, 48000), 48000, false, 0)
  const Many: Mode := Mode(2, 19, F32, RateRange(48000, 48000), 48000, false, 0)

  /** For a stereo source four channels are better than one, and one is better than
      nineteen. */
  lemma MonoOrMore(more: Mode)
    requires more == Quad || more == Many
    ensures var s := Snapshot(0, [Device("d", "device", Usb, 0, [Mono, more])]);
            var r := PlanOutput(s, SampleSpec(48000, 2, F32, Interleaved, Native),
                                [Preference(AnyDevice, AnyMode, Stop)]);
            r.Ok? && r.value.modeId == (if more == Quad then 2 else 1)
  {
    var device := Device("d", "device", Usb, 0, [Mono, more]);
    var s := Snapshot(0, [device]);
    var source, preferences := SampleSpec(48000, 2, F32, Interleaved, Native), [Preference(AnyDevice, AnyMode, Stop)];
    assert device in s.devices by {
      assert s.devices[0] == device;
    }
    assert Mono in device.modes && more in device.modes by {
      assert device.modes[0] == Mono && device.modes[1] == more;
    }
    OneDevicePlans(s, source, preferences, device, Mono);
    hide PlanOutput, ConversionLoss;
    var p := PlanOutput(s, source, preferences).value;
    var d, m := PlanSuits(s, source, preferences);
    assert d == device && (m == Mono || m == more);
    CostsNoMore(s, source, preferences, device, Mono, 48000);
    CostsNoMore(s, source, preferences, device, more, 48000);
    CostOf(Mono, 80);
    CostOf(more, if more == Quad then 10 else 85);
  }

  lemma CostOf(m: Mode, cost: nat)
    requires m.encoding == F32 && m.channels < 256 && cost == if m.channels < 2 then 160 - 80 * m.channels
                                                              else 5 * m.channels - 10
    ensures ConversionLoss(SampleSpec(48000, 2, F32, Interleaved, Native),
                           SampleSpec(48000, m.channels, F32, Interleaved, Native)).Total() == cost
  {
    LossNeverSaturates(SampleSpec(48000, 2, F32, Interleaved, Native),
                       SampleSpec(48000, m.channels, F32, Interleaved, Native));
  }

  lemma OneDevicePlans(s: Snapshot, source: SampleSpec, preferences: seq<Preference>, d: Device, m: Mode)
    requires s.devices == [d] && |d.id| > 0 && m in d.modes
    requires forall n | n in d.modes :: ValidMode(n) && n.channels <= 32
    requires preferences == [Preference(AnyDevice, AnyMode, Stop)]
    ensures PlanOutput(s, source, preferences).Ok?
  {
    var q := Query(s.revision, source, preferences);
    hide PlanOutput;
    assert d in s.devices;
    assert Matched(q, 0, d, m);
    assert SomeMatch(q, s.devices);
    PlansExactlyWhen(s, source, preferences);
  }

  // --------------------------------------------------------------- what is said

  /** Which error a failing plan reports: of the snapshot, of the preferences, of a mode
      that matches and cannot be named, or that nothing matches. */
  lemma PlanErrors(s: Snapshot, source: SampleSpec, preferences: seq<Preference>)
    ensures var q, r := Query(s.revision, source, preferences), PlanOutput(s, source, preferences);
            && (!ValidSnapshot(s) ==> r == Err(InvalidCapabilities))
            && (ValidSnapshot(s) && preferences == [] ==> r == Err(InvalidPreference))
            && (ValidSnapshot(s) && preferences != [] && AllFit(q, s.devices) && !SomeMatch(q, s.devices) ==>
                  r == Err(NoDevice))
            && (ValidSnapshot(s) && !AllFit(q, s.devices) ==> r.Err? && OfUnfitMode(r.error, q, s.devices))
  {
    var q := Query(s.revision, source, preferences);
    hide AllPlans, Best, SomeMatch, AllFit, ValidSnapshot, OfUnfitMode;
    PlansExactlyWhen(s, source, preferences);
    if ValidSnapshot(s) {
      AllValid(s);
      AllPlansFit(q, s.devices);
      AllPlansError(q, s.devices, |preferences|);
      if AllPlans(q, s.devices, |preferences|).Ok? {
        BestIsLeast(AllPlans(q, s.devices, |preferences|).value);
      }
      if preferences == [] {
        NothingUnfit(q, s.devices);
      }
    }
  }

  lemma NothingUnfit(q: Query, devices: seq<Device>)
    requires q.preferences == []
    ensures AllFit(q, devices)
  {
  }

  lemma AllValid(s: Snapshot)
    requires ValidSnapshot(s)
    ensures forall d | d in s.devices :: forall m | m in d.modes :: ValidMode(m)
  {
  }

  lemma AllPlansFit(q: Query, devices: seq<Device>)
    requires forall d | d in devices :: forall m | m in d.modes :: ValidMode(m)
    ensures AllPlans(q, devices, |q.preferences|).Ok? <==> AllFit(q, devices)
  {
    hide DeviceFits, FromPreference;
    AllPlansAre(q, devices, |q.preferences|);
  }

  /** The error of a matched mode of too many channels. */
  ghost predicate OfUnfitMode(e: PlanError, q: Query, devices: seq<Device>) {
    exists i: nat, d, m :: i < |q.preferences| && d in devices && m in d.modes && OfMode(e, q, i, d, m)
  }

  ghost predicate OfMode(e: PlanError, q: Query, i: nat, d: Device, m: Mode)
    requires i < |q.preferences|
  {
    && Matched(q, i, d, m) && m.channels > 32
    && e == if m.channels >= 256 then UnsupportedChannels(m.channels) else InvalidCapabilities
  }

  lemma {:induction false} RatePlansError(q: Query, i: nat, d: Device, m: Mode, rates: seq<U32>)
    requires i < |q.preferences| && ValidMode(m) && Matched(q, i, d, m) && forall r | r in rates :: m.rates.Contains(r)
    ensures RatePlans(q, i, d, m, rates).Err? ==> OfMode(RatePlans(q, i, d, m, rates).error, q, i, d, m)
    decreases |rates|
  {
    if |rates| > 0 {
      assert rates == rates[..|rates| - 1] + [rates[|rates| - 1]];
      RatePlansError(q, i, d, m, rates[..|rates| - 1]);
    }
  }

  lemma {:induction false} ModesPlansError(q: Query, i: nat, d: Device, modes: seq<Mode>)
    requires i < |q.preferences| && forall m | m in modes :: ValidMode(m)
    ensures ModesPlans(q, i, d, modes).Err? ==>
              exists m :: m in modes && OfMode(ModesPlans(q, i, d, modes).error, q, i, d, m)
    decreases |modes|
  {
    hide OfMode, RatesFor, Matched, RatePlans;
    if |modes| > 0 {
      var n, last := |modes| - 1, modes[|modes| - 1];
      assert modes == modes[..n] + [last];
      ModesPlansError(q, i, d, modes[..n]);
      if Matched(q, i, d, last) {
        OfferedRates(q.preferences[i], d, last, q, i);
        RatePlansError(q, i, d, last, RatesFor(q.preferences[i].mode, last, q.source.sampleRate));
      }
    }
  }

  lemma OfferedRates(pref: Preference, d: Device, m: Mode, q: Query, i: nat)
    requires i < |q.preferences| && pref == q.preferences[i] && Matched(q, i, d, m) && ValidMode(m)
    ensures forall r | r in RatesFor(pref.mode, m, q.source.sampleRate) :: m.rates.Contains(r)
  {
    RatesAreOffered(pref.mode, m, q.source.sampleRate);
  }

  lemma {:induction false} DevicesPlansError(q: Query, i: nat, devices: seq<Device>)
    requires i < |q.preferences| && forall d | d in devices :: forall m | m in d.modes :: ValidMode(m)
    ensures DevicesPlans(q, i, devices).Err? ==> OfUnfitMode(DevicesPlans(q, i, devices).error, q, devices)
    decreases |devices|
  {
    hide ModesPlans, Matched;
    if |devices| > 0 {
      var n, last := |devices| - 1, devices[|devices| - 1];
      assert devices == devices[..n] + [last];
      DevicesPlansError(q, i, devices[..n]);
      ModesPlansError(q, i, last, last.modes);
    }
  }

  lemma {:induction false} AllPlansError(q: Query, devices: seq<Device>, count: nat)
    requires count <= |q.preferences| && forall d | d in devices :: forall m | m in d.modes :: ValidMode(m)
    ensures AllPlans(q, devices, count).Err? ==> OfUnfitMode(AllPlans(q, devices, count).error, q, devices)
  {
    hide DevicesPlans, OfUnfitMode;
    if count > 0 {
      AllPlansError(q, devices, count - 1);
      DevicesPlansError(q, count - 1, devices);
    }
  }
}

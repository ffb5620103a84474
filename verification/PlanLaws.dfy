/** What plan_output promises: when it succeeds, that its plan is the unique
    least candidate whatever the order of modes, and that the few rates it tries
    lose nothing. */
module PlanLaws {
  import opened Pcm
  import opened PlanOrder
  import opened OutputPlan

  // ------------------------------------------------------------- candidates

  /** A plan the preferences and capabilities allow, independent of any loop. */
  ghost predicate FromMode(c: Plan, q: Query, i: nat, d: Device, m: Mode) {
    i < |q.preferences| && Matched(q, i, d, m) && 1 <= m.channels <= 32
    && exists rate :: rate in RatesFor(q.preferences[i].mode, m, q.source.sampleRate) && c == MakePlan(q, i, d, m, rate)
  }

  ghost predicate FromDevice(c: Plan, q: Query, i: nat, d: Device) {
    exists m :: m in d.modes && FromMode(c, q, i, d, m)
  }

  ghost predicate FromPreference(c: Plan, q: Query, i: nat, devices: seq<Device>) {
    exists d :: d in devices && FromDevice(c, q, i, d)
  }

  ghost predicate Candidate(c: Plan, q: Query, devices: seq<Device>) {
    exists i: nat :: i < |q.preferences| && FromPreference(c, q, i, devices)
  }

  /** Every mode a preference matches can be named by a sample spec. */
  ghost predicate ModeFits(q: Query, i: nat, d: Device, m: Mode)
    requires i < |q.preferences|
  {
    Matched(q, i, d, m) ==> 1 <= m.channels <= 32
  }

  ghost predicate DeviceFits(q: Query, i: nat, d: Device)
    requires i < |q.preferences|
  {
    forall m | m in d.modes :: ModeFits(q, i, d, m)
  }

  ghost predicate AllFit(q: Query, devices: seq<Device>) {
    forall i: nat, d | i < |q.preferences| && d in devices :: DeviceFits(q, i, d)
  }

  // ------------------------------------- the generated list is that set

  lemma {:induction false} RatePlansAre(q: Query, i: nat, d: Device, m: Mode, rates: seq<U32>)
    requires i < |q.preferences| && m.channels != 0 && forall r | r in rates :: r > 0 && m.rates.Contains(r)
    ensures RatePlans(q, i, d, m, rates).Ok? <==> |rates| == 0 || m.channels <= 32
    ensures RatePlans(q, i, d, m, rates).Ok? ==>
              forall c :: c in RatePlans(q, i, d, m, rates).value <==>
                          |rates| > 0 && exists r :: r in rates && c == MakePlan(q, i, d, m, r)
    decreases |rates|
  {
    if |rates| > 0 {
      var n := |rates| - 1;
      assert forall r | r in rates[..n] :: r in rates;
      RatePlansAre(q, i, d, m, rates[..n]);
      assert rates == rates[..n] + [rates[n]];
    }
  }

  lemma ModePlansAre(q: Query, i: nat, d: Device, m: Mode)
    requires i < |q.preferences| && ValidMode(m)
    ensures ModePlans(q, i, d, m).Ok? <==> ModeFits(q, i, d, m)
    ensures ModePlans(q, i, d, m).Ok? ==> forall c :: c in ModePlans(q, i, d, m).value <==> FromMode(c, q, i, d, m)
  {
    hide RatesFor, RatePlans;
    if Matched(q, i, d, m) {
      var rates := RatesFor(q.preferences[i].mode, m, q.source.sampleRate);
      RatesAreOffered(q.preferences[i].mode, m, q.source.sampleRate);
      RatePlansAre(q, i, d, m, rates);
    }
  }

  lemma {:induction false} ModesPlansAre(q: Query, i: nat, d: Device, modes: seq<Mode>)
    requires i < |q.preferences| && forall m | m in modes :: ValidMode(m)
    ensures ModesPlans(q, i, d, modes).Ok? <==> forall m | m in modes :: ModeFits(q, i, d, m)
    ensures ModesPlans(q, i, d, modes).Ok? ==>
              forall c :: c in ModesPlans(q, i, d, modes).value <==> exists m :: m in modes && FromMode(c, q, i, d, m)
    decreases |modes|
  {
    hide ModePlans, ModeFits, FromMode;
    if |modes| > 0 {
      var n := |modes| - 1;
      ModesPlansAre(q, i, d, modes[..n]);
      ModePlansAre(q, i, d, modes[n]);
      assert modes == modes[..n] + [modes[n]];
      assert modes[n] in modes;
    }
  }

  lemma {:induction false} DevicesPlansAre(q: Query, i: nat, devices: seq<Device>)
    requires i < |q.preferences| && forall d | d in devices :: forall m | m in d.modes :: ValidMode(m)
    ensures DevicesPlans(q, i, devices).Ok? <==> forall d | d in devices :: DeviceFits(q, i, d)
    ensures DevicesPlans(q, i, devices).Ok? ==>
              forall c :: c in DevicesPlans(q, i, devices).value <==> FromPreference(c, q, i, devices)
    decreases |devices|
  {
    hide ModesPlans, ModeFits, FromMode;
    if |devices| > 0 {
      var n := |devices| - 1;
      DevicesPlansAre(q, i, devices[..n]);
      assert devices[n] in devices;
      ModesPlansAre(q, i, devices[n], devices[n].modes);
      assert devices == devices[..n] + [devices[n]];
    }
  }

  lemma {:induction false} AllPlansAre(q: Query, devices: seq<Device>, count: nat)
    requires count <= |q.preferences| && forall d | d in devices :: forall m | m in d.modes :: ValidMode(m)
    ensures AllPlans(q, devices, count).Ok? <==> forall i: nat, d | i < count && d in devices :: DeviceFits(q, i, d)
    ensures AllPlans(q, devices, count).Ok? ==>
              forall c :: c in AllPlans(q, devices, count).value <==>
                          exists i: nat :: i < count && FromPreference(c, q, i, devices)
    decreases count
  {
    hide DevicesPlans, DeviceFits, FromPreference;
    if count > 0 {
      AllPlansAre(q, devices, count - 1);
      DevicesPlansAre(q, count - 1, devices);
    }
  }

  // -------------------------------------------------------------- the least

  lemma {:induction false} BestIsLeast(plans: seq<Plan>)
    ensures Best(plans).None? <==> |plans| == 0
    ensures Best(plans).Some? ==> Best(plans).value in plans
    ensures Best(plans).Some? ==> forall c | c in plans :: ComparePlan(Best(plans).value, c) != Greater
    decreases |plans|
  {
    hide Key;
    if |plans| > 0 {
      var n := |plans| - 1;
      BestIsLeast(plans[..n]);
      assert plans == plans[..n] + [plans[n]];
      var before, last := Best(plans[..n]), plans[n];
      CompareEqual(Key(last), Key(last));
      if before.Some? {
        CompareFlip(Key(last), Key(before.value));
        if ComparePlan(last, before.value) == Less {
          forall c | c in plans[..n]
            ensures ComparePlan(last, c) != Greater
          {
            CompareTransitive(Key(last), Key(before.value), Key(c));
          }
        }
      }
    }
  }

  /** Some preference matches some mode of some device. */
  ghost predicate SomeMatch(q: Query, devices: seq<Device>) {
    exists i: nat, d, m :: i < |q.preferences| && d in devices && m in d.modes && Matched(q, i, d, m)
  }

  /** plan_output succeeds exactly when the snapshot is valid, there are
      preferences, some mode matches one, and every matched mode can be named. */
  lemma PlansExactlyWhen(s: Snapshot, source: SampleSpec, preferences: seq<Preference>)
    ensures var q := Query(s.revision, source, preferences);
            PlanOutput(s, source, preferences).Ok? <==>
              && ValidSnapshot(s) && |preferences| > 0 && AllFit(q, s.devices) && SomeMatch(q, s.devices)
  {
    hide AllFit, SomeMatch, PlanOutput, Candidate;
    PlansWithCandidates(s, source, preferences);
    if ValidSnapshot(s) && AllFit(Query(s.revision, source, preferences), s.devices) {
      MatchIsCandidate(Query(s.revision, source, preferences), s.devices);
    }
  }

  /** A match whose mode can be named is a candidate plan, and conversely: the rates
      tried are never none. */
  lemma MatchIsCandidate(q: Query, devices: seq<Device>)
    requires AllFit(q, devices) && forall d | d in devices :: forall m | m in d.modes :: ValidMode(m)
    ensures SomeMatch(q, devices) <==> exists c :: Candidate(c, q, devices)
  {
    hide RatesFor, ConversionLoss;
    if SomeMatch(q, devices) {
      var i: nat, d, m :| i < |q.preferences| && d in devices && m in d.modes && Matched(q, i, d, m);
      RatesAreOffered(q.preferences[i].mode, m, q.source.sampleRate);
      assert DeviceFits(q, i, d) && ModeFits(q, i, d, m);
      var rate := RatesFor(q.preferences[i].mode, m, q.source.sampleRate)[0];
      var c := MakePlan(q, i, d, m, rate);
      assert FromMode(c, q, i, d, m) && FromDevice(c, q, i, d);
      assert FromPreference(c, q, i, devices) && Candidate(c, q, devices);
    }
    if c :| Candidate(c, q, devices) {
      var d, m := CandidateParts(c, q, devices);
    }
  }

  lemma PlansWithCandidates(s: Snapshot, source: SampleSpec, preferences: seq<Preference>)
    ensures var q := Query(s.revision, source, preferences);
            PlanOutput(s, source, preferences).Ok? <==>
              && ValidSnapshot(s) && |preferences| > 0 && AllFit(q, s.devices)
              && exists c :: Candidate(c, q, s.devices)
  {
    hide DeviceFits, FromPreference, Best, AllPlans;
    if ValidSnapshot(s) && |preferences| > 0 {
      var q := Query(s.revision, source, preferences);
      AllPlansAre(q, s.devices, |preferences|);
      var all := AllPlans(q, s.devices, |preferences|);
      if all.Ok? {
        BestIsLeast(all.value);
        if c :| Candidate(c, q, s.devices) {
          assert c in all.value;
        }
        if |all.value| > 0 {
          assert all.value[0] in all.value;
          assert Candidate(all.value[0], q, s.devices);
        }
      }
    }
  }

  /** The returned plan is a candidate and no candidate compares below it. */
  lemma PlanIsLeast(s: Snapshot, source: SampleSpec, preferences: seq<Preference>)
    requires PlanOutput(s, source, preferences).Ok?
    ensures var q := Query(s.revision, source, preferences);
            var p := PlanOutput(s, source, preferences).value;
            && Candidate(p, q, s.devices)
            && forall c | Candidate(c, q, s.devices) :: ComparePlan(p, c) != Greater
  {
    hide DeviceFits, FromPreference, Best, AllPlans, ComparePlan;
    var q := Query(s.revision, source, preferences);
    AllPlansAre(q, s.devices, |preferences|);
    BestIsLeast(AllPlans(q, s.devices, |preferences|).value);
  }

  // ------------------------------------------------------------ uniqueness

  /** No two modes of a device share an id, nor do two devices. */
  ghost predicate DistinctIds(devices: seq<Device>) {
    && (forall d, e | d in devices && e in devices && d.id == e.id :: d == e)
    && forall d | d in devices :: forall m, n | m in d.modes && n in d.modes && m.id == n.id :: m == n
  }

  ghost predicate DistinctModeIds(devices: seq<Device>) {
    forall d | d in devices :: forall m, n | m in d.modes && n in d.modes && m.id == n.id :: m == n
  }

  /** A valid snapshot's device ids are strictly increasing. */
  lemma {:induction false} IdsIncrease(s: Snapshot, i: nat, j: nat)
    requires ValidSnapshot(s) && i < j < |s.devices|
    ensures CompareInts(Codes(s.devices[i].id), Codes(s.devices[j].id)) == Less
    decreases j
  {
    if i < j - 1 {
      IdsIncrease(s, i, j - 1);
      IntsTransitive(Codes(s.devices[i].id), Codes(s.devices[j - 1].id), Codes(s.devices[j].id));
    }
  }

  /** Sorted ids name at most one device. */
  lemma DeviceIdsDistinct(s: Snapshot, d: Device, e: Device)
    requires ValidSnapshot(s) && d in s.devices && e in s.devices && d.id == e.id
    ensures d == e
  {
    var i :| 0 <= i < |s.devices| && s.devices[i] == d;
    var j :| 0 <= j < |s.devices| && s.devices[j] == e;
    IntsEqual(Codes(d.id), Codes(e.id));
    if i < j {
      IdsIncrease(s, i, j);
    } else if j < i {
      IdsIncrease(s, j, i);
    }
  }

  lemma ValidMeansDistinct(s: Snapshot)
    requires ValidSnapshot(s) && DistinctModeIds(s.devices)
    ensures DistinctIds(s.devices)
  {
    forall d, e | d in s.devices && e in s.devices && d.id == e.id
      ensures d == e
    {
      DeviceIdsDistinct(s, d, e);
    }
  }

  /** The device and mode behind a candidate; everything else is in the plan. */
  lemma CandidateParts(c: Plan, q: Query, devices: seq<Device>) returns (d: Device, m: Mode)
    requires Candidate(c, q, devices)
    ensures d in devices && m in d.modes && c.deviceId == d.id && c.modeId == m.id
    ensures c.preferenceIndex < |q.preferences| && 1 <= m.channels <= 32
    ensures Matched(q, c.preferenceIndex, d, m)
    ensures c == MakePlan(q, c.preferenceIndex, d, m, c.targetSpec.sampleRate)
    ensures c.targetSpec.sampleRate in RatesFor(q.preferences[c.preferenceIndex].mode, m, q.source.sampleRate)
  {
    hide RatesFor, ConversionLoss, Matched;
    var i: nat :| i < |q.preferences| && FromPreference(c, q, i, devices);
    d :| d in devices && FromDevice(c, q, i, d);
    m :| m in d.modes && FromMode(c, q, i, d, m);
  }

  /** Candidates with equal keys are the same plan. */
  lemma KeyDetermines(a: Plan, b: Plan, q: Query, devices: seq<Device>)
    requires DistinctIds(devices) && Candidate(a, q, devices) && Candidate(b, q, devices)
    requires ComparePlan(a, b) == Equal
    ensures a == b
  {
    hide MakePlan, Candidate, Matched;
    CompareEqual(Key(a), Key(b));
    SameKeys(a, b);
    var d, m := CandidateParts(a, q, devices);
    var e, n := CandidateParts(b, q, devices);
  }

  lemma SameKeys(a: Plan, b: Plan)
    requires Key(a) == Key(b)
    ensures a.preferenceIndex == b.preferenceIndex && a.targetSpec.sampleRate == b.targetSpec.sampleRate
    ensures a.deviceId == b.deviceId && a.modeId == b.modeId
  {
    var ka, kb := Key(a), Key(b);
    assert ka[0][0] == kb[0][0] && ka[5][0] == kb[5][0] && ka[6] == kb[6] && ka[7][0] == kb[7][0];
    CodesInjective(a.deviceId, b.deviceId);
  }

  /** Main theorem of the planner: with distinct mode ids the plan is the unique
      least candidate, strictly below every other one. */
  lemma PlanIsUniqueLeast(s: Snapshot, source: SampleSpec, preferences: seq<Preference>)
    requires PlanOutput(s, source, preferences).Ok? && DistinctModeIds(s.devices)
    ensures var q := Query(s.revision, source, preferences);
            var p := PlanOutput(s, source, preferences).value;
            && Candidate(p, q, s.devices)
            && forall c | Candidate(c, q, s.devices) && c != p :: ComparePlan(p, c) == Less
  {
    hide Candidate, ComparePlan;
    var q := Query(s.revision, source, preferences);
    var p := PlanOutput(s, source, preferences).value;
    PlanIsLeast(s, source, preferences);
    ValidMeansDistinct(s);
    forall c | Candidate(c, q, s.devices) && c != p
      ensures ComparePlan(p, c) == Less
    {
      if ComparePlan(p, c) == Equal {
        KeyDetermines(p, c, q, s.devices);
      }
    }
  }

  /** Two device lists that differ at most in the order (or repetition) of modes. */
  ghost predicate SameUpToModeOrder(a: seq<Device>, b: seq<Device>) {
    |a| == |b| && forall i | 0 <= i < |a| ::
      a[i] == b[i].(modes := a[i].modes) && forall m :: m in a[i].modes <==> m in b[i].modes
  }

  lemma SameCandidates(a: seq<Device>, b: seq<Device>, q: Query, c: Plan)
    requires SameUpToModeOrder(a, b) && Candidate(c, q, a)
    ensures Candidate(c, q, b)
  {
    hide FromMode;
    var i: nat :| i < |q.preferences| && FromPreference(c, q, i, a);
    var d :| d in a && FromDevice(c, q, i, d);
    var m :| m in d.modes && FromMode(c, q, i, d, m);
    var k :| 0 <= k < |a| && a[k] == d;
    MovedMode(c, q, i, d, b[k], m);
    assert m in b[k].modes && FromDevice(c, q, i, b[k]);
    assert b[k] in b && FromPreference(c, q, i, b);
  }

  lemma MovedMode(c: Plan, q: Query, i: nat, d: Device, e: Device, m: Mode)
    requires FromMode(c, q, i, d, m) && e == d.(modes := e.modes)
    ensures FromMode(c, q, i, e, m)
  {
    hide RatesFor, ConversionLoss, AcceptsMode;
    var rate :| rate in RatesFor(q.preferences[i].mode, m, q.source.sampleRate) && c == MakePlan(q, i, d, m, rate);
    assert MakePlan(q, i, e, m, rate) == c;
  }

  lemma SameFit(a: seq<Device>, b: seq<Device>, q: Query)
    requires SameUpToModeOrder(a, b) && AllFit(q, a)
    ensures AllFit(q, b)
  {
    forall i: nat, d | i < |q.preferences| && d in b
      ensures DeviceFits(q, i, d)
    {
      var k :| 0 <= k < |b| && b[k] == d;
      assert a[k] in a && DeviceFits(q, i, a[k]);
      forall m | m in d.modes
        ensures ModeFits(q, i, d, m)
      {
        assert m in a[k].modes && ModeFits(q, i, a[k], m);
      }
    }
  }

  lemma SameValid(a: Snapshot, b: Snapshot)
    requires SameUpToModeOrder(a.devices, b.devices) && ValidSnapshot(a)
    ensures ValidSnapshot(b)
  {
    hide ValidMode, CompareInts;
    forall d | d in b.devices
      ensures |d.id| > 0 && forall m | m in d.modes :: ValidMode(m)
    {
      var k :| 0 <= k < |b.devices| && b.devices[k] == d;
      assert a.devices[k] in a.devices && a.devices[k].id == d.id;
    }
    forall i | 0 <= i < |b.devices| - 1
      ensures CompareInts(Codes(b.devices[i].id), Codes(b.devices[i + 1].id)) == Less
    {
      assert a.devices[i].id == b.devices[i].id && a.devices[i + 1].id == b.devices[i + 1].id;
    }
  }

  lemma SymmetricOrder(a: seq<Device>, b: seq<Device>)
    requires SameUpToModeOrder(a, b)
    ensures SameUpToModeOrder(b, a)
  {
  }

  /** The order of modes inside devices decides neither whether a plan is found
      nor which. */
  lemma ModeOrderIsIrrelevant(a: Snapshot, b: Snapshot, source: SampleSpec, preferences: seq<Preference>)
    requires a.revision == b.revision && SameUpToModeOrder(a.devices, b.devices)
    requires DistinctModeIds(a.devices) && PlanOutput(a, source, preferences).Ok?
    ensures PlanOutput(b, source, preferences) == PlanOutput(a, source, preferences)
  {
    hide Candidate, ComparePlan, AllFit;
    var q := Query(a.revision, source, preferences);
    PlansWithCandidates(a, source, preferences);
    PlansWithCandidates(b, source, preferences);
    SameValid(a, b);
    SameFit(a.devices, b.devices, q);
    SymmetricOrder(a.devices, b.devices);
    PlanIsUniqueLeast(a, source, preferences);
    var p := PlanOutput(a, source, preferences).value;
    SameCandidates(a.devices, b.devices, q, p);
    PlanIsLeast(b, source, preferences);
    var r := PlanOutput(b, source, preferences).value;
    SameCandidates(b.devices, a.devices, q, r);
    CompareFlip(Key(p), Key(r));
    assert ComparePlan(p, r) == Flip(ComparePlan(r, p)) by {
      PlanFlip(p, r);
    }
  }

  lemma PlanFlip(p: Plan, r: Plan)
    ensures ComparePlan(p, r) == Flip(ComparePlan(r, p))
  {
    CompareFlip(Key(r), Key(p));
  }

  // ---------------------------------------------------- the candidate rates

  /** The rate of a range nearest the source costs the least of all its rates. */
  function NearestRate(range: RateRange, source: U32): U32 {
    if source < range.min then range.min else if source > range.max then range.max else source
  }

  lemma NearestIsCheapest(range: RateRange, source: U32, rate: U32)
    requires range.Contains(rate)
    ensures RateLoss(source, NearestRate(range, source)) <= RateLoss(source, rate)
  {
  }

  lemma NearestIsTried(p: ModePreference, m: Mode, source: U32)
    requires !p.ExactMode? && ValidMode(m)
    ensures NearestRate(m.rates, source) in RatesFor(p, m, source)
  {
    var r1 := if Requested(p).Some? then AddRate(AddRate([], m.rates, source), m.rates, Requested(p).value)
              else AddRate([], m.rates, source);
    var r2 := AddRate(r1, m.rates, m.defaultRate);
    var r3 := AddRate(r2, m.rates, m.rates.min);
    assert m.rates.Contains(source) ==> source in r1 && source in r2 && source in r3;
    assert m.rates.min in r3;
  }

  lemma TotalByRate(source: SampleSpec, m: Mode, cheap: U32, dear: U32)
    requires m.channels <= 32 && RateLoss(source.sampleRate, cheap) <= RateLoss(source.sampleRate, dear)
    ensures ConversionLoss(source, SampleSpec(cheap, m.channels, m.encoding, Interleaved, Native)).Total()
         <= ConversionLoss(source, SampleSpec(dear, m.channels, m.encoding, Interleaved, Native)).Total()
  {
    LossNeverSaturates(source, SampleSpec(cheap, m.channels, m.encoding, Interleaved, Native));
    LossNeverSaturates(source, SampleSpec(dear, m.channels, m.encoding, Interleaved, Native));
  }

  /** A plan of the same preference and device priority is never cheaper. */
  lemma LeastIsCheapest(p: Plan, c: Plan)
    requires ComparePlan(p, c) != Greater
    requires p.preferenceIndex == c.preferenceIndex && p.devicePriority == c.devicePriority
    ensures p.loss.Total() <= c.loss.Total()
  {
    var a, b := Key(p), Key(c);
    assert a[..2] == [a[0], a[1]] && b[..2] == [b[0], b[1]];
    FirstDifference(a, b, 2);
    assert CompareInts(a[2], b[2]) == Greater <==> c.loss.Total() < p.loss.Total();
  }

  /** Trying at most five rates per mode loses nothing: for a preference other
      than an exact one, no rate anywhere in the range of any mode it matches, at
      the winning device priority, converts at less total loss than the plan. */
  lemma FiveRatesLoseNothing(s: Snapshot, source: SampleSpec, preferences: seq<Preference>, d: Device, m: Mode,
                             rate: U32)
    requires PlanOutput(s, source, preferences).Ok?
    requires var p := PlanOutput(s, source, preferences).value;
             var q := Query(s.revision, source, preferences);
             && p.preferenceIndex < |preferences| && !preferences[p.preferenceIndex].mode.ExactMode?
             && d in s.devices && d.priority == p.devicePriority && m in d.modes
             && Matched(q, p.preferenceIndex, d, m) && m.rates.Contains(rate)
    ensures 1 <= m.channels <= 32
    ensures PlanOutput(s, source, preferences).value.loss.Total()
         <= ConversionLoss(source, SampleSpec(rate, m.channels, m.encoding, Interleaved, Native)).Total()
  {
    hide RatesFor, ConversionLoss, Matched, ComparePlan, RateLoss;
    var p, q := PlanOutput(s, source, preferences).value, Query(s.revision, source, preferences);
    var i := p.preferenceIndex;
    PlansWithCandidates(s, source, preferences);
    assert DeviceFits(q, i, d) && ModeFits(q, i, d, m);
    var nearest := NearestRate(m.rates, source.sampleRate);
    NearestIsTried(preferences[i].mode, m, source.sampleRate);
    NearestIsCheapest(m.rates, source.sampleRate, rate);
    TotalByRate(source, m, nearest, rate);
    var c := MakePlan(q, i, d, m, nearest);
    assert FromMode(c, q, i, d, m);
    assert FromDevice(c, q, i, d);
    assert FromPreference(c, q, i, s.devices);
    assert Candidate(c, q, s.devices);
    PlanIsLeast(s, source, preferences);
    LeastIsCheapest(p, c);
  }

  /** At most five rates are tried. */
  lemma AtMostFiveRates(p: ModePreference, m: Mode, source: U32)
    ensures |RatesFor(p, m, source)| <= 5
    ensures NoRateTwice(RatesFor(p, m, source))
  {
  }
}

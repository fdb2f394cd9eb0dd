/**
 * The ramping envelope of one generation or storage asset: how much more
 * (Up) or less (Down) real power it can deliver at each sample of the time
 * grid, counted from its present operating point.
 */
module Flexibility {
  import opened Wrappers
  import opened Series

  /** The stored-energy parameters of a storage asset: charge in percent, capacity in MWs. */
  datatype Storage = Storage(charge: real, energy: real)

  /**
   * One asset. Power in MW, latency in s, ramp rates in MW/s given as
   * magnitudes; storage is present only for an energy-limited asset.
   */
  datatype Asset = Asset(
    output: real,
    maxOutput: real,
    minOutput: real,
    latency: real,
    rampUp: real,
    rampDown: real,
    storage: Option<Storage>)

  /** Up and Down curves over the time grid, and the operating point they start from. */
  datatype Envelope = Envelope(up: seq<real>, down: seq<real>, output: real)

  predicate IsStorage(asset: Option<Asset>)
  {
    asset.Some? && asset.value.storage.Some?
  }

  /** The power a ramp of the given rate has covered at time t after starting at start. */
  function Travel(t: real, start: real, rate: real): real
  {
    t * rate - start * rate
  }

  /** Floors a ramp value at 0, then caps it at the headroom. */
  function ClampUp(raw: real, headroom: real): (r: real)
    ensures r <= headroom
    ensures headroom >= 0.0 ==> r >= 0.0
    ensures 0.0 <= raw <= headroom ==> r == raw
  {
    var floored := if raw < 0.0 then 0.0 else raw;
    if floored > headroom then headroom else floored
  }

  /** Caps a ramp value at 0, then floors it at the footroom. */
  function ClampDown(raw: real, footroom: real): (r: real)
    ensures footroom <= r
    ensures footroom <= 0.0 ==> r <= 0.0
    ensures footroom <= raw <= 0.0 ==> r == raw
  {
    var capped := if raw > 0.0 then 0.0 else raw;
    if capped < footroom then footroom else capped
  }

  lemma ClampUpMonotone(x: real, y: real, headroom: real)
    requires x <= y
    ensures ClampUp(x, headroom) <= ClampUp(y, headroom)
  {
  }

  lemma ClampDownMonotone(x: real, y: real, footroom: real)
    requires x <= y
    ensures ClampDown(x, footroom) <= ClampDown(y, footroom)
  {
  }

  /** The upward ramp at time t: linear after the latency, floored at 0, capped by the headroom. */
  function RampUpAt(a: Asset, t: real): (r: real)
    ensures r <= a.maxOutput - a.output
    ensures a.output <= a.maxOutput ==> 0.0 <= r
  {
    ClampUp(Travel(t, a.latency, a.rampUp), a.maxOutput - a.output)
  }

  /** The downward ramp at time t: linear after the latency, capped at 0, floored by the footroom. */
  function RampDownAt(a: Asset, t: real): (r: real)
    ensures a.minOutput - a.output <= r
    ensures a.minOutput <= a.output ==> r <= 0.0
  {
    ClampDown(Travel(t, a.latency, -a.rampDown), a.minOutput - a.output)
  }

  /** The Up curve before any energy limit is applied. */
  function RampUpCurve(a: Asset, time: seq<real>): (r: seq<real>)
    ensures |r| == |time|
    ensures forall i :: 0 <= i < |time| ==> r[i] == RampUpAt(a, time[i])
  {
    seq(|time|, i requires 0 <= i < |time| => RampUpAt(a, time[i]))
  }

  /** The Down curve before any energy limit is applied. */
  function RampDownCurve(a: Asset, time: seq<real>): (r: seq<real>)
    ensures |r| == |time|
    ensures forall i :: 0 <= i < |time| ==> r[i] == RampDownAt(a, time[i])
  {
    seq(|time|, i requires 0 <= i < |time| => RampDownAt(a, time[i]))
  }

  /** The energy a storage asset can still deliver: its charge as a share of its capacity. */
  function EnergyToEmpty(st: Storage): (e: real)
    ensures st.charge == 0.0 ==> e == 0.0
    ensures st.charge == 100.0 ==> e == st.energy
    ensures 0.0 <= st.charge <= 100.0 && 0.0 <= st.energy ==> 0.0 <= e <= st.energy
  {
    StoredShare(st.charge, st.energy);
    st.charge * st.energy / 100.0
  }

  /** The energy a storage asset can still absorb: the capacity not yet charged. */
  function EnergyToFull(st: Storage): (e: real)
    ensures e + EnergyToEmpty(st) == st.energy
    ensures st.charge == 0.0 ==> e == st.energy
    ensures st.charge == 100.0 ==> e == 0.0
    ensures 0.0 <= st.charge <= 100.0 && 0.0 <= st.energy ==> 0.0 <= e <= st.energy
  {
    st.energy - EnergyToEmpty(st)
  }

  lemma StoredShare(c: real, x: real)
    ensures 0.0 <= c <= 100.0 && 0.0 <= x ==> 0.0 <= c * x / 100.0 <= x
  {
    if 0.0 <= c <= 100.0 && 0.0 <= x {
      assert 0.0 <= c * x;
      assert 0.0 <= (100.0 - c) * x;
    }
  }

  /** The grid step the energy test uses: the spacing of the first two samples. */
  function Step(time: seq<real>): (dt: real)
    requires |time| >= 2
    ensures dt > 0.0 <==> time[0] < time[1]
  {
    time[1] - time[0]
  }

  /**
   * Zeroes each Up sample at which the energy delivered so far (running sum
   * times dt) exceeds the energy available; other samples are kept.
   */
  function LimitUp(up: seq<real>, dt: real, budget: real): (r: seq<real>)
    ensures |r| == |up|
    ensures forall i :: 0 <= i < |up| ==>
      r[i] == if Sum(up[..i + 1]) * dt > budget then 0.0 else up[i]
  {
    var c := CumSum(up);
    seq(|up|, i requires 0 <= i < |up| => if c[i] * dt > budget then 0.0 else up[i])
  }

  /**
   * Zeroes each Down sample at which the energy absorbed so far (minus the
   * running sum, times dt) exceeds the room left to fill; other samples are kept.
   */
  function LimitDown(down: seq<real>, dt: real, budget: real): (r: seq<real>)
    ensures |r| == |down|
    ensures forall i :: 0 <= i < |down| ==>
      r[i] == if -Sum(down[..i + 1]) * dt > budget then 0.0 else down[i]
  {
    var c := CumSum(down);
    seq(|down|, i requires 0 <= i < |down| => if -c[i] * dt > budget then 0.0 else down[i])
  }

  /** The flexibility of an asset; an absent asset contributes nothing. */
  function AssetFlexibility(asset: Option<Asset>, time: seq<real>): (e: Envelope)
    requires IsStorage(asset) ==> |time| >= 2
    ensures |e.up| == |time| && |e.down| == |time|
    ensures e.output == if asset.Some? then asset.value.output else 0.0
  {
    match asset
    case None => Envelope(Zeros(|time|), Zeros(|time|), 0.0)
    case Some(a) =>
      var up := RampUpCurve(a, time);
      var down := RampDownCurve(a, time);
      match a.storage
      case None => Envelope(up, down, a.output)
      case Some(st) =>
        var dt := Step(time);
        Envelope(LimitUp(up, dt, EnergyToEmpty(st)), LimitDown(down, dt, EnergyToFull(st)), a.output)
  }

  // ---------------------------------------------------------------------
  // Properties of one sample
  // ---------------------------------------------------------------------

  lemma RampUpCurveNonnegative(a: Asset, time: seq<real>)
    requires a.output <= a.maxOutput
    ensures forall k :: 0 <= k < |time| ==> RampUpCurve(a, time)[k] >= 0.0
  {
    forall k | 0 <= k < |time| ensures RampUpCurve(a, time)[k] >= 0.0 {
    }
  }

  lemma RampDownCurveNonpositive(a: Asset, time: seq<real>)
    requires a.minOutput <= a.output
    ensures forall k :: 0 <= k < |time| ==> RampDownCurve(a, time)[k] <= 0.0
  {
    forall k | 0 <= k < |time| ensures RampDownCurve(a, time)[k] <= 0.0 {
    }
  }

  /** Before the latency has elapsed the asset cannot ramp in either direction. */
  lemma RampZeroBeforeLatency(a: Asset, t: real)
    requires a.rampUp >= 0.0 && a.rampDown >= 0.0
    requires a.minOutput <= a.output <= a.maxOutput
    requires t <= a.latency
    ensures RampUpAt(a, t) == 0.0 && RampDownAt(a, t) == 0.0
  {
    RampBeforeStart(t, a.latency, a.rampUp);
    RampBeforeStart(t, a.latency, a.rampDown);
  }

  /** Before the start s, a ramp of non-negative rate r has covered nothing, in either direction. */
  lemma RampBeforeStart(t: real, s: real, r: real)
    requires t <= s && r >= 0.0
    ensures Travel(t, s, r) <= 0.0
    ensures Travel(t, s, -r) >= 0.0
  {
    assert t * r - s * r == (t - s) * r;
    assert t * -r - s * -r == (s - t) * r;
  }

  /** Up never decreases and Down never increases as time goes on. */
  lemma RampMonotone(a: Asset, t1: real, t2: real)
    requires a.rampUp >= 0.0 && a.rampDown >= 0.0
    requires t1 <= t2
    ensures RampUpAt(a, t1) <= RampUpAt(a, t2)
    ensures RampDownAt(a, t2) <= RampDownAt(a, t1)
  {
    TravelGrows(t1, t2, a.latency, a.rampUp);
    ClampUpMonotone(Travel(t1, a.latency, a.rampUp), Travel(t2, a.latency, a.rampUp), a.maxOutput - a.output);
    TravelFalls(t1, t2, a.latency, a.rampDown);
    ClampDownMonotone(Travel(t2, a.latency, -a.rampDown), Travel(t1, a.latency, -a.rampDown), a.minOutput - a.output);
  }

  lemma TravelGrows(t1: real, t2: real, s: real, r: real)
    requires t1 <= t2 && r >= 0.0
    ensures Travel(t1, s, r) <= Travel(t2, s, r)
  {
    assert (t2 - t1) * r >= 0.0;
  }

  lemma TravelFalls(t1: real, t2: real, s: real, r: real)
    requires t1 <= t2 && r >= 0.0
    ensures Travel(t2, s, -r) <= Travel(t1, s, -r)
  {
    assert (t2 - t1) * r >= 0.0;
  }

  /**
   * Once the ramp has had time to cover the headroom after the latency, Up
   * is saturated at the headroom; likewise Down at the footroom.
   */
  lemma RampSaturates(a: Asset, t: real)
    requires a.rampUp > 0.0 && a.rampDown > 0.0
    requires a.minOutput <= a.output <= a.maxOutput
    ensures t >= a.latency + (a.maxOutput - a.output) / a.rampUp ==>
      RampUpAt(a, t) == a.maxOutput - a.output
    ensures t >= a.latency + (a.output - a.minOutput) / a.rampDown ==>
      RampDownAt(a, t) == a.minOutput - a.output
  {
    var h := a.maxOutput - a.output;
    if t >= a.latency + h / a.rampUp {
      assert (t - a.latency) * a.rampUp >= (h / a.rampUp) * a.rampUp;
      assert (h / a.rampUp) * a.rampUp == h;
      assert Travel(t, a.latency, a.rampUp) == (t - a.latency) * a.rampUp;
    }
    var g := a.output - a.minOutput;
    if t >= a.latency + g / a.rampDown {
      assert (t - a.latency) * a.rampDown >= (g / a.rampDown) * a.rampDown;
      assert (g / a.rampDown) * a.rampDown == g;
      assert Travel(t, a.latency, -a.rampDown) == -((t - a.latency) * a.rampDown);
    }
  }

  // ---------------------------------------------------------------------
  // Properties of the envelope
  // ---------------------------------------------------------------------

  /** An absent asset yields the zero envelope at output 0. */
  lemma AbsentAssetIsZero(time: seq<real>)
    ensures AssetFlexibility(None, time) == Envelope(Zeros(|time|), Zeros(|time|), 0.0)
    ensures forall i :: 0 <= i < |time| ==>
      AssetFlexibility(None, time).up[i] == 0.0 && AssetFlexibility(None, time).down[i] == 0.0
  {
  }

  /**
   * Up stays within [0, maxOutput - output] and Down within
   * [minOutput - output, 0] at every sample, energy limit or not, so the
   * asset never leaves its operating range.
   */
  lemma EnvelopeWithinBounds(a: Asset, time: seq<real>)
    requires IsStorage(Some(a)) ==> |time| >= 2
    requires a.minOutput <= a.output <= a.maxOutput
    ensures forall i :: 0 <= i < |time| ==>
      && 0.0 <= AssetFlexibility(Some(a), time).up[i] <= a.maxOutput - a.output
      && a.minOutput - a.output <= AssetFlexibility(Some(a), time).down[i] <= 0.0
  {
    var e := AssetFlexibility(Some(a), time);
    forall i | 0 <= i < |time|
      ensures 0.0 <= e.up[i] <= a.maxOutput - a.output
      ensures a.minOutput - a.output <= e.down[i] <= 0.0
    {
    }
  }

  /** No sample at or before the latency offers any flexibility, energy limit or not. */
  lemma EnvelopeZeroBeforeLatency(a: Asset, time: seq<real>)
    requires IsStorage(Some(a)) ==> |time| >= 2
    requires a.rampUp >= 0.0 && a.rampDown >= 0.0
    requires a.minOutput <= a.output <= a.maxOutput
    ensures forall i :: 0 <= i < |time| && time[i] <= a.latency ==>
      AssetFlexibility(Some(a), time).up[i] == 0.0 && AssetFlexibility(Some(a), time).down[i] == 0.0
  {
    var e := AssetFlexibility(Some(a), time);
    forall i | 0 <= i < |time| && time[i] <= a.latency
      ensures e.up[i] == 0.0 && e.down[i] == 0.0
    {
      RampZeroBeforeLatency(a, time[i]);
    }
  }

  /**
   * Without an energy limit, the envelope is the clamped linear ramp at each
   * sample, Up is non-decreasing and Down non-increasing over an increasing grid.
   */
  lemma UnlimitedEnvelopeMonotone(a: Asset, time: seq<real>)
    requires a.storage.None?
    requires a.rampUp >= 0.0 && a.rampDown >= 0.0
    requires IsIncreasing(time)
    ensures AssetFlexibility(Some(a), time).up == RampUpCurve(a, time)
    ensures AssetFlexibility(Some(a), time).down == RampDownCurve(a, time)
    ensures forall i, j :: 0 <= i <= j < |time| ==>
      && AssetFlexibility(Some(a), time).up[i] <= AssetFlexibility(Some(a), time).up[j]
      && AssetFlexibility(Some(a), time).down[j] <= AssetFlexibility(Some(a), time).down[i]
  {
    var e := AssetFlexibility(Some(a), time);
    forall i, j | 0 <= i <= j < |time|
      ensures e.up[i] <= e.up[j] && e.down[j] <= e.down[i]
    {
      RampMonotone(a, time[i], time[j]);
    }
  }

  /**
   * With storage, each sample is the unlimited ramp or 0: Up is zeroed exactly
   * where dt times the running sum of the unlimited Up exceeds the energy to
   * empty, Down exactly where minus dt times the running sum of the unlimited
   * Down exceeds the energy to full.
   */
  lemma StorageZeroesPointwise(a: Asset, time: seq<real>)
    requires a.storage.Some? && |time| >= 2
    ensures forall i :: 0 <= i < |time| ==>
      var spent := Sum(RampUpCurve(a, time)[..i + 1]) * Step(time);
      AssetFlexibility(Some(a), time).up[i]
        == if spent > EnergyToEmpty(a.storage.value) then 0.0 else RampUpAt(a, time[i])
    ensures forall i :: 0 <= i < |time| ==>
      var absorbed := -Sum(RampDownCurve(a, time)[..i + 1]) * Step(time);
      AssetFlexibility(Some(a), time).down[i]
        == if absorbed > EnergyToFull(a.storage.value) then 0.0 else RampDownAt(a, time[i])
  {
  }

  /** Over a non-negative curve and a positive step, a zeroed sample stays zeroed. */
  lemma LimitUpPersists(up: seq<real>, dt: real, budget: real, i: nat)
    requires forall k :: 0 <= k < |up| ==> up[k] >= 0.0
    requires dt >= 0.0 && i < |up|
    requires Sum(up[..i + 1]) * dt > budget
    ensures forall j :: i <= j < |up| ==> LimitUp(up, dt, budget)[j] == 0.0
  {
    forall j | i <= j < |up| ensures LimitUp(up, dt, budget)[j] == 0.0 {
      LimitUpZeroAt(up, dt, budget, i, j);
    }
  }

  lemma LimitUpZeroAt(up: seq<real>, dt: real, budget: real, i: nat, j: nat)
    requires forall k :: 0 <= k < |up| ==> up[k] >= 0.0
    requires dt >= 0.0 && i <= j < |up|
    requires Sum(up[..i + 1]) * dt > budget
    ensures LimitUp(up, dt, budget)[j] == 0.0
  {
    SumPrefixGrows(up, i + 1, j + 1);
    LimitUpZeroWhenSpent(up, dt, budget, Sum(up[..i + 1]), j);
  }

  /** A sample whose running sum is at least an amount already over budget is zeroed. */
  lemma LimitUpZeroWhenSpent(up: seq<real>, dt: real, budget: real, x: real, j: nat)
    requires dt >= 0.0 && j < |up|
    requires x <= Sum(up[..j + 1]) && x * dt > budget
    ensures LimitUp(up, dt, budget)[j] == 0.0
  {
    StillOverBudget(x, Sum(up[..j + 1]), dt, budget);
  }

  /** Over a non-positive curve and a positive step, a zeroed sample stays zeroed. */
  lemma LimitDownPersists(down: seq<real>, dt: real, budget: real, i: nat)
    requires forall k :: 0 <= k < |down| ==> down[k] <= 0.0
    requires dt >= 0.0 && i < |down|
    requires -Sum(down[..i + 1]) * dt > budget
    ensures forall j :: i <= j < |down| ==> LimitDown(down, dt, budget)[j] == 0.0
  {
    forall j | i <= j < |down| ensures LimitDown(down, dt, budget)[j] == 0.0 {
      LimitDownZeroAt(down, dt, budget, i, j);
    }
  }

  lemma LimitDownZeroAt(down: seq<real>, dt: real, budget: real, i: nat, j: nat)
    requires forall k :: 0 <= k < |down| ==> down[k] <= 0.0
    requires dt >= 0.0 && i <= j < |down|
    requires -Sum(down[..i + 1]) * dt > budget
    ensures LimitDown(down, dt, budget)[j] == 0.0
  {
    SumPrefixShrinks(down, i + 1, j + 1);
    LimitDownZeroWhenAbsorbed(down, dt, budget, Sum(down[..i + 1]), j);
  }

  /** A sample whose running sum is at most an amount already over budget is zeroed. */
  lemma LimitDownZeroWhenAbsorbed(down: seq<real>, dt: real, budget: real, x: real, j: nat)
    requires dt >= 0.0 && j < |down|
    requires Sum(down[..j + 1]) <= x && -x * dt > budget
    ensures LimitDown(down, dt, budget)[j] == 0.0
  {
    StillOverBudgetBelow(x, Sum(down[..j + 1]), dt, budget);
  }

  /** A negative amount whose magnitude is over budget stays over budget as it falls. */
  lemma StillOverBudgetBelow(x: real, y: real, dt: real, budget: real)
    requires y <= x && dt >= 0.0 && -x * dt > budget
    ensures -y * dt > budget
  {
    ScaleMonotone(-x, -y, dt);
  }

  /** An amount over budget stays over budget as it grows. */
  lemma StillOverBudget(x: real, y: real, dt: real, budget: real)
    requires x <= y && dt >= 0.0 && x * dt > budget
    ensures y * dt > budget
  {
    ScaleMonotone(x, y, dt);
  }

  /**
   * Because the unlimited Up is never negative and dt is positive, the
   * running sum only grows: once a sample of Up is zeroed by the energy
   * limit, every later sample is zeroed too.
   */
  lemma UpZeroingPersists(a: Asset, time: seq<real>, i: nat)
    requires a.storage.Some? && |time| >= 2 && time[0] < time[1]
    requires a.output <= a.maxOutput
    requires i < |time|
    requires Sum(RampUpCurve(a, time)[..i + 1]) * Step(time) > EnergyToEmpty(a.storage.value)
    ensures forall j :: i <= j < |time| ==> AssetFlexibility(Some(a), time).up[j] == 0.0
  {
    RampUpCurveNonnegative(a, time);
    LimitUpPersists(RampUpCurve(a, time), Step(time), EnergyToEmpty(a.storage.value), i);
  }

  /** The mirror of UpZeroingPersists for Down against the energy to full. */
  lemma DownZeroingPersists(a: Asset, time: seq<real>, i: nat)
    requires a.storage.Some? && |time| >= 2 && time[0] < time[1]
    requires a.minOutput <= a.output
    requires i < |time|
    requires -Sum(RampDownCurve(a, time)[..i + 1]) * Step(time) > EnergyToFull(a.storage.value)
    ensures forall j :: i <= j < |time| ==> AssetFlexibility(Some(a), time).down[j] == 0.0
  {
    RampDownCurveNonpositive(a, time);
    LimitDownPersists(RampDownCurve(a, time), Step(time), EnergyToFull(a.storage.value), i);
  }

  lemma ScaleMonotone(x: real, y: real, c: real)
    requires x <= y && c >= 0.0
    ensures x * c <= y * c && c * x <= c * y
  {
    assert (y - x) * c >= 0.0;
  }

  /** A storage asset at 0 % charge has nothing to discharge: Up is 0 at every sample. */
  lemma EmptyStorageCannotRampUp(a: Asset, time: seq<real>)
    requires a.storage.Some? && a.storage.value.charge == 0.0
    requires |time| >= 2 && time[0] < time[1]
    requires a.output <= a.maxOutput
    ensures forall i :: 0 <= i < |time| ==> AssetFlexibility(Some(a), time).up[i] == 0.0
  {
    var up := RampUpCurve(a, time);
    var dt := Step(time);
    assert EnergyToEmpty(a.storage.value) == 0.0;
    RampUpCurveNonnegative(a, time);
    assert up[..0] == [];
    forall i | 0 <= i < |time| ensures AssetFlexibility(Some(a), time).up[i] == 0.0 {
      SumPrefixGrows(up, 0, i);
      SumPrefixLast(up, i);
      if Sum(up[..i + 1]) * dt <= 0.0 {
        assert Sum(up[..i + 1]) <= 0.0;
        assert up[i] == 0.0;
      }
    }
  }

  /** A storage asset at 100 % charge has no room to charge: Down is 0 at every sample. */
  lemma FullStorageCannotRampDown(a: Asset, time: seq<real>)
    requires a.storage.Some? && a.storage.value.charge == 100.0
    requires |time| >= 2 && time[0] < time[1]
    requires a.minOutput <= a.output
    ensures forall i :: 0 <= i < |time| ==> AssetFlexibility(Some(a), time).down[i] == 0.0
  {
    var down := RampDownCurve(a, time);
    var dt := Step(time);
    assert EnergyToFull(a.storage.value) == 0.0;
    RampDownCurveNonpositive(a, time);
    assert down[..0] == [];
    forall i | 0 <= i < |time| ensures AssetFlexibility(Some(a), time).down[i] == 0.0 {
      SumPrefixShrinks(down, 0, i);
      SumPrefixLast(down, i);
      if -Sum(down[..i + 1]) * dt <= 0.0 {
        assert Sum(down[..i + 1]) >= 0.0;
        assert down[i] == 0.0;
      }
    }
  }

  /** A gas-fired unit at 7 of 10 MW, latency 1 s, ramping 1 MW/s up and 1.5 MW/s down. */
  lemma GasFiredScenario()
    ensures
      var gas := Asset(7.0, 10.0, 0.0, 1.0, 1.0, 1.5, None);
      var e := AssetFlexibility(Some(gas), [0.5, 2.0, 3.0]);
      e.up == [0.0, 1.0, 2.0] && e.down == [0.0, -1.5, -3.0] && e.output == 7.0
  {
  }
}

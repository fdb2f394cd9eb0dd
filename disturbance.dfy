/**
 * The power-disturbance tolerance curve of the grid: the kinetic-energy
 * margins to the frequency limits, spread over the elapsed time.
 */
module Disturbance {
  import opened Series

  /** Inertia as kinetic energy (MWs), present frequency and its limits (Hz). */
  datatype GridSystem = GridSystem(inertia: real, freq: real, freqMin: real, freqMax: real)

  /** Tolerated disturbance per sample: lower (negative direction) and upper. */
  datatype DisturbanceCurve = DisturbanceCurve(lower: seq<real>, upper: seq<real>)

  /**
   * The moment of inertia J from K = 1/2 J w^2 with w = 4 pi f / 2, as the
   * engine writes it. The value of pi is a parameter: it cancels below.
   */
  function RotorMoment(s: GridSystem, pi: real): (j: real)
    requires pi != 0.0 && s.freq != 0.0
    ensures RotorEnergy(j, s.freq, pi) == s.inertia
    ensures s.inertia > 0.0 ==> j > 0.0
  {
    var w := 4.0 * pi * s.freq / 2.0;
    NonzeroProduct(pi, s.freq);
    SquarePositive(w);
    RotorAlgebra(s.inertia, w, w, 1.0);
    (2.0 * s.inertia) / (w * w)
  }

  /** The kinetic energy 1/2 J w^2 of a rotor of moment j turning at frequency g. */
  function RotorEnergy(j: real, g: real, pi: real): (e: real)
    ensures j >= 0.0 ==> e >= 0.0
  {
    var w := 4.0 * pi * g / 2.0;
    (1.0 / 2.0 * j) * (w * w)
  }

  /** The kinetic energy of the system's rotating mass at frequency g, in closed form K (g/f)^2. */
  function KineticEnergyAt(s: GridSystem, g: real): (e: real)
    requires s.freq != 0.0
    ensures g == s.freq ==> e == s.inertia
  {
    s.inertia * ((g / s.freq) * (g / s.freq))
  }

  /** The kinetic energy that can be given up before the lower frequency limit. */
  function MarginDown(s: GridSystem): (m: real)
    requires s.freq != 0.0
    ensures s.freqMin == s.freq ==> m == 0.0
  {
    s.inertia - KineticEnergyAt(s, s.freqMin)
  }

  /** The kinetic energy that can be taken up before the upper frequency limit. */
  function MarginUp(s: GridSystem): (m: real)
    requires s.freq != 0.0
    ensures s.freqMax == s.freq ==> m == 0.0
  {
    KineticEnergyAt(s, s.freqMax) - s.inertia
  }

  /** The tolerance curve: each margin divided by the elapsed time at every sample. */
  function PowerDisturbanceCurve(time: seq<real>, s: GridSystem): (c: DisturbanceCurve)
    requires s.freq != 0.0
    requires forall i :: 0 <= i < |time| ==> time[i] != 0.0
    ensures |c.lower| == |time| && |c.upper| == |time|
  {
    DisturbanceCurve(Spread(-MarginUp(s), time), Spread(MarginDown(s), time))
  }

  /** An energy m spread over each elapsed time of the grid. */
  function Spread(m: real, time: seq<real>): (r: seq<real>)
    requires forall i :: 0 <= i < |time| ==> time[i] != 0.0
    ensures |r| == |time|
    ensures forall i :: 0 <= i < |time| ==> r[i] == m / time[i]
  {
    seq(|time|, i requires 0 <= i < |time| => m / time[i])
  }

  /**
   * The moment of inertia and pi cancel: the energy at any frequency g of a
   * rotor whose energy at the system frequency is the inertia K is K (g/f)^2.
   */
  lemma RotorEnergyCancels(s: GridSystem, g: real, pi: real)
    requires pi != 0.0 && s.freq != 0.0
    ensures RotorEnergy(RotorMoment(s, pi), g, pi) == KineticEnergyAt(s, g)
  {
    NonzeroProduct(pi, s.freq);
    RotorAlgebra(s.inertia, 4.0 * pi * s.freq / 2.0, 4.0 * pi * g / 2.0, g / s.freq);
  }

  /** The margins computed with the engine's formulas equal the closed forms, for any pi. */
  lemma MarginsAsWritten(s: GridSystem, pi: real)
    requires pi != 0.0 && s.freq != 0.0
    ensures MarginDown(s) == s.inertia - RotorEnergy(RotorMoment(s, pi), s.freqMin, pi)
    ensures MarginUp(s) == RotorEnergy(RotorMoment(s, pi), s.freqMax, pi) - s.inertia
  {
    RotorEnergyCancels(s, s.freqMin, pi);
    RotorEnergyCancels(s, s.freqMax, pi);
  }

  /** A well-posed system: positive inertia and 0 < freqMin < freq < freqMax. */
  predicate IsWellPosed(s: GridSystem)
  {
    s.inertia > 0.0 && 0.0 < s.freqMin < s.freq < s.freqMax
  }

  /** Both margins are positive for a well-posed system. */
  lemma MarginsPositive(s: GridSystem)
    requires IsWellPosed(s)
    ensures MarginDown(s) > 0.0 && MarginUp(s) > 0.0
  {
    var lo := s.freqMin / s.freq;
    var hi := s.freqMax / s.freq;
    RatioBelowOne(s.freqMin, s.freq);
    RatioAboveOne(s.freqMax, s.freq);
    SquareStrictlyMonotone(lo, 1.0);
    SquareStrictlyMonotone(1.0, hi);
    MulPos(s.inertia, 1.0 - lo * lo);
    MulPos(s.inertia, hi * hi - 1.0);
  }

  /** Over a positive grid the upper curve is positive and the lower curve negative. */
  lemma CurveSigns(time: seq<real>, s: GridSystem)
    requires IsWellPosed(s) && IsTimeGrid(time)
    ensures forall i :: 0 <= i < |time| ==> time[i] != 0.0
    ensures forall i :: 0 <= i < |time| ==>
      PowerDisturbanceCurve(time, s).upper[i] > 0.0 && PowerDisturbanceCurve(time, s).lower[i] < 0.0
  {
    GridIsPositive(time);
    MarginsPositive(s);
  }

  /** Both tolerance magnitudes strictly decrease as the elapsed time grows. */
  lemma CurveRelaxes(time: seq<real>, s: GridSystem)
    requires IsWellPosed(s) && IsTimeGrid(time)
    ensures forall i :: 0 <= i < |time| ==> time[i] != 0.0
    ensures forall i, j :: 0 <= i < j < |time| ==>
      && PowerDisturbanceCurve(time, s).upper[j] < PowerDisturbanceCurve(time, s).upper[i]
      && PowerDisturbanceCurve(time, s).lower[i] < PowerDisturbanceCurve(time, s).lower[j]
  {
    GridIsPositive(time);
    MarginsPositive(s);
    var c := PowerDisturbanceCurve(time, s);
    forall i, j | 0 <= i < j < |time|
      ensures c.upper[j] < c.upper[i] && c.lower[i] < c.lower[j]
    {
      DivideByLaterTime(MarginDown(s), time[i], time[j]);
      DivideByLaterTime(MarginUp(s), time[i], time[j]);
    }
  }

  /** Scaling the inertia by a scales the whole curve by a: larger inertia, proportionally larger tolerance. */
  lemma CurveProportionalToInertia(time: seq<real>, s: GridSystem, a: real)
    requires s.freq != 0.0
    requires forall i :: 0 <= i < |time| ==> time[i] != 0.0
    ensures forall i :: 0 <= i < |time| ==>
      && PowerDisturbanceCurve(time, s.(inertia := a * s.inertia)).upper[i]
           == a * PowerDisturbanceCurve(time, s).upper[i]
      && PowerDisturbanceCurve(time, s.(inertia := a * s.inertia)).lower[i]
           == a * PowerDisturbanceCurve(time, s).lower[i]
  {
    forall i | 0 <= i < |time|
      ensures && PowerDisturbanceCurve(time, s.(inertia := a * s.inertia)).upper[i]
                   == a * PowerDisturbanceCurve(time, s).upper[i]
              && PowerDisturbanceCurve(time, s.(inertia := a * s.inertia)).lower[i]
                   == a * PowerDisturbanceCurve(time, s).lower[i]
    {
      SampleProportionalToInertia(time, s, a, i);
    }
  }

  lemma SampleProportionalToInertia(time: seq<real>, s: GridSystem, a: real, i: nat)
    requires s.freq != 0.0
    requires forall k :: 0 <= k < |time| ==> time[k] != 0.0
    requires i < |time|
    ensures PowerDisturbanceCurve(time, s.(inertia := a * s.inertia)).upper[i]
      == a * PowerDisturbanceCurve(time, s).upper[i]
    ensures PowerDisturbanceCurve(time, s.(inertia := a * s.inertia)).lower[i]
      == a * PowerDisturbanceCurve(time, s).lower[i]
  {
    var scaled := s.(inertia := a * s.inertia);
    MarginsScale(s, a);
    SpreadScales(MarginDown(s), MarginDown(scaled), a, time, i);
    SpreadScales(-MarginUp(s), -MarginUp(scaled), a, time, i);
  }

  /** Spreading a times an energy gives a times each sample. */
  lemma SpreadScales(m: real, n: real, a: real, time: seq<real>, i: nat)
    requires forall k :: 0 <= k < |time| ==> time[k] != 0.0
    requires i < |time| && n == a * m
    ensures Spread(n, time)[i] == a * Spread(m, time)[i]
  {
    ScaleQuotient(a, m, time[i]);
  }

  /** Scaling the inertia by a scales both margins by a. */
  lemma MarginsScale(s: GridSystem, a: real)
    requires s.freq != 0.0
    ensures MarginDown(s.(inertia := a * s.inertia)) == a * MarginDown(s)
    ensures -MarginUp(s.(inertia := a * s.inertia)) == a * -MarginUp(s)
  {
    var lo := s.freqMin / s.freq;
    var hi := s.freqMax / s.freq;
    ScaleDifference(a, s.inertia, lo * lo);
    ScaleDifference(a, s.inertia, hi * hi);
  }

  /** A limit farther from the present frequency leaves a larger margin. */
  lemma FartherLimitLargerMargin(s: GridSystem, lo: real, hi: real)
    requires IsWellPosed(s)
    requires 0.0 < lo <= s.freqMin && s.freqMax <= hi
    ensures MarginDown(s) <= MarginDown(s.(freqMin := lo))
    ensures MarginUp(s) <= MarginUp(s.(freqMax := hi))
    ensures lo < s.freqMin ==> MarginDown(s) < MarginDown(s.(freqMin := lo))
    ensures s.freqMax < hi ==> MarginUp(s) < MarginUp(s.(freqMax := hi))
  {
    KineticEnergyMonotone(s, lo, s.freqMin);
    KineticEnergyMonotone(s, s.freqMax, hi);
    assert KineticEnergyAt(s.(freqMin := lo), lo) == KineticEnergyAt(s, lo);
    assert KineticEnergyAt(s.(freqMax := hi), hi) == KineticEnergyAt(s, hi);
  }

  /** Kinetic energy grows with frequency, strictly for positive inertia. */
  lemma KineticEnergyMonotone(s: GridSystem, g1: real, g2: real)
    requires s.inertia > 0.0 && s.freq > 0.0 && 0.0 < g1 <= g2
    ensures KineticEnergyAt(s, g1) <= KineticEnergyAt(s, g2)
    ensures g1 < g2 ==> KineticEnergyAt(s, g1) < KineticEnergyAt(s, g2)
  {
    if g1 < g2 {
      ScaledSquareStrictlyMonotone(s.inertia, g1, g2, s.freq);
    } else {
      assert g1 == g2;
    }
  }

  lemma ScaledSquareStrictlyMonotone(k: real, x: real, y: real, c: real)
    requires k > 0.0 && 0.0 < x < y && c > 0.0
    ensures k * ((x / c) * (x / c)) < k * ((y / c) * (y / c))
  {
    DivStrictlyMonotone(x, y, c);
    SquareStrictlyMonotone(x / c, y / c);
    MulStrictlyMonotone(k, (x / c) * (x / c), (y / c) * (y / c));
  }

  /**
   * Moving either frequency limit strictly farther from the present frequency
   * strictly widens the curve at every sample: the system then tolerates a
   * larger disturbance in that direction for the same time.
   */
  lemma FartherLimitWiderCurve(time: seq<real>, s: GridSystem, lo: real, hi: real)
    requires IsWellPosed(s) && IsTimeGrid(time)
    requires 0.0 < lo < s.freqMin && s.freqMax < hi
    ensures forall i :: 0 <= i < |time| ==> time[i] != 0.0
    ensures forall i :: 0 <= i < |time| ==>
      && PowerDisturbanceCurve(time, s).upper[i] < PowerDisturbanceCurve(time, s.(freqMin := lo)).upper[i]
      && PowerDisturbanceCurve(time, s.(freqMax := hi)).lower[i] < PowerDisturbanceCurve(time, s).lower[i]
  {
    GridIsPositive(time);
    FartherLimitLargerMargin(s, lo, hi);
    var c := PowerDisturbanceCurve(time, s);
    var wideDown := PowerDisturbanceCurve(time, s.(freqMin := lo));
    var wideUp := PowerDisturbanceCurve(time, s.(freqMax := hi));
    forall i | 0 <= i < |time| ensures c.upper[i] < wideDown.upper[i] && wideUp.lower[i] < c.lower[i] {
      DivideByPositive(MarginDown(s), MarginDown(s.(freqMin := lo)), time[i]);
      DivideByPositive(MarginUp(s), MarginUp(s.(freqMax := hi)), time[i]);
    }
  }

  /**
   * With the frequency exactly midway between its limits, the curve is not
   * symmetric: kinetic energy grows with the square of frequency, so the
   * margin to the upper limit is larger than the margin to the lower one and
   * -lower is strictly larger than upper at every sample.
   */
  lemma MidwayCurveIsAsymmetric(time: seq<real>, s: GridSystem)
    requires IsWellPosed(s) && IsTimeGrid(time)
    requires s.freq - s.freqMin == s.freqMax - s.freq
    ensures forall i :: 0 <= i < |time| ==> time[i] != 0.0
    ensures forall i :: 0 <= i < |time| ==>
      -PowerDisturbanceCurve(time, s).lower[i] > PowerDisturbanceCurve(time, s).upper[i]
  {
    GridIsPositive(time);
    MidwayMarginsDiffer(s);
    var c := PowerDisturbanceCurve(time, s);
    forall i | 0 <= i < |time| ensures -c.lower[i] > c.upper[i] {
      DivideDifference(MarginUp(s), MarginDown(s), time[i]);
    }
  }

  /** Midway between the limits, the upper margin exceeds the lower one by 2K(d/f)^2. */
  lemma MidwayMarginsDiffer(s: GridSystem)
    requires IsWellPosed(s)
    requires s.freq - s.freqMin == s.freqMax - s.freq
    ensures MarginUp(s) > MarginDown(s)
  {
    var f := s.freq;
    var d := s.freq - s.freqMin;
    var e := d / f;
    SplitRatio(f, d);
    assert s.freqMin / f == 1.0 - e && s.freqMax / f == 1.0 + e;
    SumOfOppositeSquares(e);
    SquarePositive(e);
    MulPos(s.inertia, e * e);
    ScaleSum(s.inertia, (1.0 + e) * (1.0 + e), (1.0 - e) * (1.0 - e));
    assert MarginUp(s) - MarginDown(s) == 2.0 * (s.inertia * (e * e));
  }

  /** 50 MWs at 60 Hz between 59 and 61 Hz, sampled at 0.1, 1 and 5 s. */
  lemma Scenario()
    ensures
      var c := PowerDisturbanceCurve([0.1, 1.0, 5.0], GridSystem(50.0, 60.0, 59.0, 61.0));
      && c.upper[2] < c.upper[1] < c.upper[0]
      && c.upper[1] == 50.0 * 119.0 / 3600.0
      && c.lower[1] == -(50.0 * 121.0 / 3600.0)
  {
    var s := GridSystem(50.0, 60.0, 59.0, 61.0);
    var time := [0.1, 1.0, 5.0];
    assert (59.0 / 60.0) * (59.0 / 60.0) == 3481.0 / 3600.0;
    assert (61.0 / 60.0) * (61.0 / 60.0) == 3721.0 / 3600.0;
    assert MarginDown(s) == 50.0 * 119.0 / 3600.0;
    assert MarginUp(s) == 50.0 * 121.0 / 3600.0;
    assert IsTimeGrid(time);
    CurveRelaxes(time, s);
  }

  // ---------------------------------------------------------------------
  // Real-arithmetic steps the solver does not find unaided
  // ---------------------------------------------------------------------

  lemma MulPos(a: real, b: real)
    requires a > 0.0 && b > 0.0
    ensures a * b > 0.0
  {
  }

  lemma MulNonneg(a: real, b: real)
    requires a >= 0.0 && b >= 0.0
    ensures a * b >= 0.0
  {
  }

  lemma MulMonotone(c: real, x: real, y: real)
    requires c >= 0.0 && x <= y
    ensures c * x <= c * y
  {
  }

  lemma SquarePositive(x: real)
    requires x != 0.0
    ensures x * x > 0.0
  {
    if x > 0.0 {
      MulPos(x, x);
    } else {
      MulPos(-x, -x);
      NegSquare(x);
    }
  }

  lemma NegSquare(x: real)
    ensures (-x) * (-x) == x * x
  {
  }

  lemma DiffSquares(p: real, q: real)
    ensures (q - p) * (q + p) == q * q - p * p
  {
  }

  lemma SquareStrictlyMonotone(p: real, q: real)
    requires 0.0 <= p < q
    ensures p * p < q * q
  {
    DiffSquares(p, q);
    MulPos(q - p, q + p);
  }

  lemma SquareMonotone(p: real, q: real)
    requires 0.0 <= p <= q
    ensures p * p <= q * q
  {
    DiffSquares(p, q);
    MulNonneg(q - p, q + p);
  }

  lemma SumOfOppositeSquares(e: real)
    ensures (1.0 + e) * (1.0 + e) + (1.0 - e) * (1.0 - e) == 2.0 + 2.0 * (e * e)
  {
  }

  lemma NonzeroProduct(a: real, b: real)
    requires a != 0.0 && b != 0.0
    ensures 4.0 * a * b / 2.0 != 0.0
  {
  }

  /** 1/2 (2k / w^2) v^2 == k q^2 when v == q w. */
  lemma RotorAlgebra(k: real, w: real, v: real, q: real)
    requires w != 0.0 && v == q * w
    ensures (1.0 / 2.0 * ((2.0 * k) / (w * w))) * (v * v) == k * (q * q)
  {
    RotorAlgebraExpanded(k, w, q);
  }

  lemma RotorAlgebraExpanded(k: real, w: real, q: real)
    requires w != 0.0
    ensures (1.0 / 2.0 * ((2.0 * k) / (w * w))) * ((q * w) * (q * w)) == k * (q * q)
  {
  }

  lemma ScaleDifference(a: real, k: real, x: real)
    ensures a * k - (a * k) * x == a * (k - k * x)
    ensures (a * k) * x - a * k == a * (k * x - k)
  {
  }

  lemma ScaleSum(k: real, x: real, y: real)
    ensures k * x - k + (k * y - k) == k * (x + y) - 2.0 * k
  {
  }

  lemma ScaleQuotient(a: real, m: real, t: real)
    requires t != 0.0
    ensures (a * m) / t == a * (m / t)
  {
  }

  lemma RatioBelowOne(x: real, y: real)
    requires 0.0 < x < y
    ensures 0.0 < x / y < 1.0
  {
    assert y / y == 1.0;
    assert x / y < y / y;
  }

  lemma RatioAboveOne(x: real, y: real)
    requires 0.0 < y < x
    ensures x / y > 1.0
  {
    assert y / y == 1.0;
    assert y / y < x / y;
  }

  lemma DivMonotone(x: real, y: real, c: real)
    requires 0.0 < x <= y && c > 0.0
    ensures 0.0 < x / c <= y / c
  {
  }

  lemma DivStrictlyMonotone(x: real, y: real, c: real)
    requires 0.0 < x < y && c > 0.0
    ensures 0.0 < x / c < y / c
  {
  }

  lemma MulStrictlyMonotone(c: real, x: real, y: real)
    requires c > 0.0 && x < y
    ensures c * x < c * y
  {
    MulPos(c, y - x);
  }

  lemma DivideByPositive(m: real, n: real, t: real)
    requires t > 0.0 && m < n
    ensures m / t < n / t
    ensures -n / t < -m / t
  {
    assert -m / t == -(m / t) && -n / t == -(n / t);
  }

  lemma SplitRatio(f: real, d: real)
    requires f != 0.0
    ensures (f - d) / f == 1.0 - d / f && (f + d) / f == 1.0 + d / f
  {
    assert (f - d) / f == f / f - d / f;
    assert (f + d) / f == f / f + d / f;
    assert f / f == 1.0;
  }

  lemma DivideByLaterTime(m: real, t1: real, t2: real)
    requires m > 0.0 && 0.0 < t1 < t2
    ensures m / t2 < m / t1
    ensures -m / t1 < -m / t2
  {
    assert -m / t1 == -(m / t1) && -m / t2 == -(m / t2);
  }

  lemma DivideDifference(m: real, n: real, t: real)
    requires t > 0.0 && m > n
    ensures -(-m / t) > n / t
  {
    assert -(-m / t) == m / t;
    assert m / t - n / t == (m - n) / t;
  }
}

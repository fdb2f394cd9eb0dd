/**
 * The crossing search: where the system's flexibility first strictly
 * overtakes the disturbance tolerance curve, in each direction.
 */
module Search {
  import opened Wrappers
  import opened Series
  import opened Disturbance
  import opened Aggregation

  /** The largest and smallest survivable disturbances and the times they occur. */
  datatype DisturbanceInfo = DisturbanceInfo(
    maxDist: real,
    minDist: real,
    maxDistTime: real,
    minDistTime: real)

  /** No sample crosses: the first-index lookup has nothing to return. */
  datatype SearchError = NoDownCrossing | NoUpCrossing

  /**
   * The first index where lower > Down gives the minimum disturbance, the
   * first index where upper < Up the maximum one. The downward search runs
   * first, so when neither direction crosses the downward failure is the
   * one reported.
   */
  function MaxMinDisturbance(flex: Flex, curve: DisturbanceCurve, time: seq<real>): (r: Result<DisturbanceInfo, SearchError>)
    requires |curve.lower| == |flex.down| && |curve.upper| == |flex.up|
    requires |time| == |flex.down| && |time| == |flex.up|
    ensures r == Err(NoDownCrossing) <==> forall i :: 0 <= i < |time| ==> curve.lower[i] <= flex.down[i]
    ensures r == Err(NoUpCrossing) <==>
      && (exists i :: 0 <= i < |time| && curve.lower[i] > flex.down[i])
      && (forall j :: 0 <= j < |time| ==> flex.up[j] <= curve.upper[j])
    ensures r.Ok? ==> exists i: nat, j: nat ::
      && IsFirstAbove(curve.lower, flex.down, i)
      && IsFirstAbove(flex.up, curve.upper, j)
      && r.value == DisturbanceInfo(curve.upper[j], curve.lower[i], time[j], time[i])
  {
    match FirstAbove(curve.lower, flex.down)
    case None => Err(NoDownCrossing)
    case Some(idxDown) =>
      match FirstAbove(flex.up, curve.upper)
      case None => Err(NoUpCrossing)
      case Some(idxUp) =>
        Ok(DisturbanceInfo(curve.upper[idxUp], curve.lower[idxDown], time[idxUp], time[idxDown]))
  }

  /** The reported values are determined: any first crossing indices yield exactly the result. */
  lemma CrossingIsFirstStrictExcess(flex: Flex, curve: DisturbanceCurve, time: seq<real>, i: nat, j: nat)
    requires |curve.lower| == |flex.down| && |curve.upper| == |flex.up|
    requires |time| == |flex.down| && |time| == |flex.up|
    requires IsFirstAbove(curve.lower, flex.down, i) && IsFirstAbove(flex.up, curve.upper, j)
    ensures MaxMinDisturbance(flex, curve, time)
      == Ok(DisturbanceInfo(curve.upper[j], curve.lower[i], time[j], time[i]))
  {
    var r := MaxMinDisturbance(flex, curve, time);
    assert r.Ok?;
    var i': nat, j': nat :| && IsFirstAbove(curve.lower, flex.down, i')
                  && IsFirstAbove(flex.up, curve.upper, j')
                  && r.value == DisturbanceInfo(curve.upper[j'], curve.lower[i'], time[j'], time[i']);
    FirstAboveUnique(curve.lower, flex.down, i, i');
    FirstAboveUnique(flex.up, curve.upper, j, j');
  }

  /** Touching a curve is not crossing it: flexibility equal to the curve everywhere finds no crossing. */
  lemma TiesAreNotCrossings(flex: Flex, curve: DisturbanceCurve, time: seq<real>)
    requires |curve.lower| == |flex.down| && |curve.upper| == |flex.up|
    requires |time| == |flex.down| && |time| == |flex.up|
    ensures (forall i :: 0 <= i < |time| ==> curve.lower[i] == flex.down[i]) ==>
      MaxMinDisturbance(flex, curve, time) == Err(NoDownCrossing)
    ensures (exists i :: 0 <= i < |time| && curve.lower[i] > flex.down[i]) ==>
      (forall j :: 0 <= j < |time| ==> flex.up[j] == curve.upper[j]) ==>
      MaxMinDisturbance(flex, curve, time) == Err(NoUpCrossing)
  {
  }
}

/**
 * The system-wide flexibility: the elementwise sum of the envelopes of the
 * gas-fired, hydro, solar, wind and battery assets.
 */
module Aggregation {
  import opened Wrappers
  import opened Series
  import opened Flexibility

  /** The aggregated Up and Down curves; no single operating point belongs to the sum. */
  datatype Flex = Flex(up: seq<real>, down: seq<real>)

  predicate SameShape(a: Envelope, b: Envelope)
  {
    |a.up| == |b.up| && |a.down| == |b.down|
  }

  /** Sample i of an envelope's Up curve. */
  function UpAt(i: nat): Envelope -> real
  {
    (e: Envelope) => if i < |e.up| then e.up[i] else 0.0
  }

  /** Sample i of an envelope's Down curve. */
  function DownAt(i: nat): Envelope -> real
  {
    (e: Envelope) => if i < |e.down| then e.down[i] else 0.0
  }

  lemma SumOfFive(a: Envelope, b: Envelope, c: Envelope, d: Envelope, e: Envelope, f: Envelope -> real)
    ensures SumOf([a, b, c, d, e], f) == f(a) + f(b) + f(c) + f(d) + f(e)
  {
    SumOfSingleton(a, f);
    SumOfSnoc([a], b, f);
    assert [a] + [b] == [a, b];
    SumOfSnoc([a, b], c, f);
    assert [a, b] + [c] == [a, b, c];
    SumOfSnoc([a, b, c], d, f);
    assert [a, b, c] + [d] == [a, b, c, d];
    SumOfSnoc([a, b, c, d], e, f);
    assert [a, b, c, d] + [e] == [a, b, c, d, e];
  }

  /**
   * Sample i of the aggregate is the sum, over the five envelopes, of their
   * sample i, for Up and for Down alike.
   */
  function Aggregate(gas: Envelope, hydro: Envelope, solar: Envelope, wind: Envelope, battery: Envelope): (f: Flex)
    requires SameShape(gas, hydro) && SameShape(gas, solar) && SameShape(gas, wind) && SameShape(gas, battery)
    ensures |f.up| == |gas.up| && |f.down| == |gas.down|
    ensures forall i :: 0 <= i < |f.up| ==> f.up[i] == SumOf([gas, hydro, solar, wind, battery], UpAt(i))
    ensures forall i :: 0 <= i < |f.down| ==> f.down[i] == SumOf([gas, hydro, solar, wind, battery], DownAt(i))
  {
    var up := Add(Add(Add(Add(gas.up, hydro.up), solar.up), wind.up), battery.up);
    var down := Add(Add(Add(Add(gas.down, hydro.down), solar.down), wind.down), battery.down);
    assert forall i :: 0 <= i < |up| ==> up[i] == SumOf([gas, hydro, solar, wind, battery], UpAt(i)) by {
      forall i | 0 <= i < |up| ensures up[i] == SumOf([gas, hydro, solar, wind, battery], UpAt(i)) {
        SumOfFive(gas, hydro, solar, wind, battery, UpAt(i));
      }
    }
    assert forall i :: 0 <= i < |down| ==> down[i] == SumOf([gas, hydro, solar, wind, battery], DownAt(i)) by {
      forall i | 0 <= i < |down| ensures down[i] == SumOf([gas, hydro, solar, wind, battery], DownAt(i)) {
        SumOfFive(gas, hydro, solar, wind, battery, DownAt(i));
      }
    }
    Flex(up, down)
  }

  /** All envelopes in es have the shape of the first. */
  predicate Conformable(es: seq<Envelope>)
  {
    forall k :: 0 <= k < |es| ==> SameShape(es[0], es[k])
  }

  /**
   * The aggregate does not depend on the order in which the five envelopes
   * are given: any rearrangement yields the same Up and Down curves.
   */
  lemma AggregateOrderIndependent(es: seq<Envelope>, ps: seq<Envelope>)
    requires |es| == 5 && Conformable(es)
    requires multiset(ps) == multiset(es)
    ensures |ps| == 5 && Conformable(ps)
    ensures Aggregate(ps[0], ps[1], ps[2], ps[3], ps[4]) == Aggregate(es[0], es[1], es[2], es[3], es[4])
  {
    RearrangedIsConformable(es, ps);
    var f := Aggregate(ps[0], ps[1], ps[2], ps[3], ps[4]);
    var g := Aggregate(es[0], es[1], es[2], es[3], es[4]);
    assert [es[0], es[1], es[2], es[3], es[4]] == es;
    assert [ps[0], ps[1], ps[2], ps[3], ps[4]] == ps;
    forall i | 0 <= i < |f.up| ensures f.up[i] == g.up[i] {
      SumOfPermutation(ps, es, UpAt(i));
    }
    forall i | 0 <= i < |f.down| ensures f.down[i] == g.down[i] {
      SumOfPermutation(ps, es, DownAt(i));
    }
  }

  lemma RearrangedIsConformable(es: seq<Envelope>, ps: seq<Envelope>)
    requires |es| == 5 && Conformable(es)
    requires multiset(ps) == multiset(es)
    ensures |ps| == 5 && Conformable(ps)
    ensures SameShape(es[0], ps[0])
  {
    assert |ps| == |multiset(ps)| == |multiset(es)| == 5;
    forall k | 0 <= k < 5 ensures SameShape(es[0], ps[k]) {
      assert ps[k] in multiset(es);
    }
  }

  /**
   * An absent asset in any of the five positions leaves the aggregate equal
   * to the sum of the other four envelopes.
   */
  lemma AbsentAssetLeavesAggregateUnchanged(es: seq<Envelope>, k: nat, time: seq<real>)
    requires |es| == 5 && Conformable(es) && k < 5
    requires es[k] == AssetFlexibility(None, time)
    ensures |es[0].up| == |time| && |es[0].down| == |time|
    ensures var f := Aggregate(es[0], es[1], es[2], es[3], es[4]);
      && (forall i :: 0 <= i < |time| ==> f.up[i] == SumOf(es[..k] + es[k + 1..], UpAt(i)))
      && (forall i :: 0 <= i < |time| ==> f.down[i] == SumOf(es[..k] + es[k + 1..], DownAt(i)))
  {
    assert SameShape(es[0], es[k]);
    assert [es[0], es[1], es[2], es[3], es[4]] == es;
    var f := Aggregate(es[0], es[1], es[2], es[3], es[4]);
    forall i | 0 <= i < |time| ensures f.up[i] == SumOf(es[..k] + es[k + 1..], UpAt(i)) {
      SumOfRemove(es, k, UpAt(i));
    }
    forall i | 0 <= i < |time| ensures f.down[i] == SumOf(es[..k] + es[k + 1..], DownAt(i)) {
      SumOfRemove(es, k, DownAt(i));
    }
  }
}

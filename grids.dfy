/**
 * The fixed grids of the infusion calculator: the sample times (np.linspace(0, 120, 1201))
 * and the candidate infusion rates (np.arange(3, 15, 0.1)), both over exact reals.
 */
module Grids {

  /** Smallest integer not below x. */
  function Ceil(x: real): (n: int)
    ensures (n - 1) as real < x <= n as real
  {
    -((-x).Floor)
  }

  /** num evenly spaced values from start to stop, both ends included when num >= 2. */
  function Linspace(start: real, stop: real, num: nat): (ts: seq<real>)
    ensures |ts| == num
    ensures num >= 1 ==> ts[0] == start
    ensures num >= 2 ==> ts[num - 1] == stop
    ensures num >= 2 ==> forall i :: 0 <= i < num - 1 ==> ts[i + 1] - ts[i] == (stop - start) / (num - 1) as real
  {
    if num == 0 then []
    else if num == 1 then [start]
    else
      var step := (stop - start) / (num - 1) as real;
      seq(num, i requires 0 <= i < num => start + i as real * step)
  }

  /** Values start, start + step, ... strictly below stop, for a positive step. */
  function Arange(start: real, stop: real, step: real): (xs: seq<real>)
    requires step > 0.0
    ensures forall i :: 0 <= i < |xs| ==> xs[i] == start + i as real * step && xs[i] < stop
    ensures start + |xs| as real * step >= stop
  {
    var n := Ceil((stop - start) / step);
    var len: nat := if n < 0 then 0 else n;
    var xs := seq(len, i requires 0 <= i < len => start + i as real * step);
    forall i | 0 <= i < len ensures xs[i] < stop {
      ArangeBelowStop(start, stop, step, i);
    }
    ArangeReachesStop(start, stop, step);
    xs
  }

  lemma ArangeBelowStop(start: real, stop: real, step: real, i: nat)
    requires step > 0.0 && i < Ceil((stop - start) / step)
    ensures start + i as real * step < stop
  {
    MulBelow(i as real, (stop - start) / step, step);
  }

  lemma ArangeReachesStop(start: real, stop: real, step: real)
    requires step > 0.0
    ensures var n := Ceil((stop - start) / step);
      start + (if n < 0 then 0 else n) as real * step >= stop
  {
  }

  lemma MulBelow(x: real, y: real, step: real)
    requires step > 0.0 && x < y
    ensures x * step < y * step
  {
  }

  /** The time grid: 1201 samples, one every tenth of a minute, from 0 to 120 minutes. */
  function TimeGrid(): (ts: seq<real>)
    ensures |ts| == 1201
    ensures forall i :: 0 <= i < 1201 ==> ts[i] == i as real / 10.0
  {
    Linspace(0.0, 120.0, 1201)
  }

  /** The candidate rates (mg/kg/h): the 120 values 3.0, 3.1, ..., 14.9. */
  function RateGrid(): (rs: seq<real>)
    ensures |rs| == 120
    ensures forall i :: 0 <= i < 120 ==> rs[i] == 3.0 + 0.1 * i as real
  {
    var rs := Arange(3.0, 15.0, 0.1);
    rs
  }

  /** The time grid is strictly increasing. */
  lemma TimeGridMonotone(i: int, j: int)
    requires 0 <= i <= j < 1201
    ensures TimeGrid()[i] <= TimeGrid()[j]
    ensures i < j ==> TimeGrid()[i] < TimeGrid()[j]
  {
  }

  /** The rate grid is strictly increasing and lies within [3, 15). */
  lemma RateGridAscending(i: int, j: int)
    requires 0 <= i < j < 120
    ensures 3.0 <= RateGrid()[i] < RateGrid()[j] < 15.0
  {
  }
}

/**
 * The infusion-rate recommender of calculate_propofol_infusion_flexible: the grid search for
 * the candidate rate whose mean steady-state Ce lies in the target band and is closest to its
 * midpoint, the success or failure result built from the winning simulation, and the
 * checkpoint table read from that result.
 */
module Infusion {
  import opened Options
  import opened PkModel
  import Grids
  import opened Series

  /** Target band of the effect-site concentration (mcg/mL). */
  const TargetMin: real := 1.2
  const TargetMax: real := 1.4
  const TargetMid: real := (TargetMin + TargetMax) / 2.0

  /** A candidate qualifies when its mean steady-state Ce lies in the band, ends included. */
  predicate InBand(meanCe: real)
  {
    TargetMin <= meanCe <= TargetMax
  }

  /** Distance of a qualifying mean to the midpoint of the band. */
  function Score(meanCe: real): real
  {
    Abs(meanCe - TargetMid)
  }

  /** Ce has gone above the band. */
  predicate ExceedsUpper(ce: real)
  {
    ce > TargetMax
  }

  /** Ce has reached the band. */
  predicate ReachesLower(ce: real)
  {
    ce >= TargetMin
  }

  /** Infusion rate in mg/min for a rate in mg/kg/h. */
  function RateMgPerMin(rateMgKgH: real, weight: real): real
  {
    rateMgKgH * weight / 60.0
  }

  /** The simulated trajectory for one infusion rate (mg/kg/h), bolus loaded at time 0. */
  function Simulate(odeint: Odeint, weight: real, bolusDose: real, rateMgKgH: real): (sol: seq<State>)
    requires weight > 0.0 && SolverShape(odeint)
    ensures |sol| == |Grids.TimeGrid()|
  {
    odeint(PkRhs(Derive(weight)), InitialState(bolusDose, weight), Grids.TimeGrid(), RateMgPerMin(rateMgKgH, weight))
  }

  /** Mean of a Ce curve over its steady-state window on the time grid. */
  function SteadyMeanCe(ce: seq<real>): (m: real)
    requires |ce| == |Grids.TimeGrid()|
    ensures m == Mean(ce[101..])
  {
    SteadyWindowOnTimeGrid(ce);
    Mean(SteadyWindow(ce, Grids.TimeGrid()))
  }

  /** Mean steady-state Ce obtained with one candidate rate (mg/kg/h). */
  function CandidateMeanCe(odeint: Odeint, weight: real, bolusDose: real, rateMgKgH: real): (m: real)
    requires weight > 0.0 && SolverShape(odeint)
    ensures m == Mean(EffectSiteCurve(Simulate(odeint, weight, bolusDose, rateMgKgH), Derive(weight).v1)[101..])
  {
    SteadyMeanCe(EffectSiteCurve(Simulate(odeint, weight, bolusDose, rateMgKgH), Derive(weight).v1))
  }

  /** The mean steady-state Ce of every candidate on the rate grid, in grid order. */
  ghost function GridMeans(odeint: Odeint, weight: real, bolusDose: real): (ms: seq<real>)
    requires weight > 0.0 && SolverShape(odeint)
    ensures |ms| == |Grids.RateGrid()|
    ensures forall i :: 0 <= i < |ms| ==> ms[i] == CandidateMeanCe(odeint, weight, bolusDose, Grids.RateGrid()[i])
    ensures forall i :: 0 <= i < |ms| ==>
      ms[i] == Mean(EffectSiteCurve(Simulate(odeint, weight, bolusDose, Grids.RateGrid()[i]), Derive(weight).v1)[101..])
  {
    var rates := Grids.RateGrid();
    seq(|rates|, i requires 0 <= i < |rates| => CandidateMeanCe(odeint, weight, bolusDose, rates[i]))
  }

  /**
   * The running best of the scan over the first |ms| candidates: a qualifying candidate
   * replaces the best so far only when its score is strictly smaller.
   */
  function BestIn(ms: seq<real>): (r: Option<nat>)
    ensures r.Some? ==> r.value < |ms|
    decreases |ms|
  {
    if |ms| == 0 then None
    else
      var n := |ms| - 1;
      var prev := BestIn(ms[..n]);
      if InBand(ms[n]) && (prev.None? || Score(ms[n]) < Score(ms[prev.value])) then Some(n) else prev
  }

  /** One step of the scan: candidate i replaces the best so far only on a strictly smaller score. */
  lemma BestInStep(ms: seq<real>, i: nat)
    requires i < |ms|
    ensures var prev := BestIn(ms[..i]);
      BestIn(ms[..i + 1]) ==
        if InBand(ms[i]) && (prev.None? || Score(ms[i]) < Score(ms[prev.value])) then Some(i) else prev
  {
    assert ms[..i + 1][..i] == ms[..i];
  }

  /** k is a qualifying candidate with the least score, and every earlier qualifier scores worse. */
  ghost predicate IsFirstClosest(ms: seq<real>, k: nat)
  {
    k < |ms| && InBand(ms[k]) &&
    (forall i :: 0 <= i < |ms| && InBand(ms[i]) ==> Score(ms[k]) <= Score(ms[i])) &&
    (forall i :: 0 <= i < k && InBand(ms[i]) ==> Score(ms[k]) < Score(ms[i]))
  }

  /** The scan finds nothing exactly when no candidate qualifies. */
  lemma {:induction false} BestInNoneIff(ms: seq<real>)
    ensures BestIn(ms).None? <==> forall i :: 0 <= i < |ms| ==> !InBand(ms[i])
    decreases |ms|
  {
    if |ms| > 0 {
      var n := |ms| - 1;
      BestInNoneIff(ms[..n]);
      assert forall i :: 0 <= i < n ==> ms[..n][i] == ms[i];
    }
  }

  /** What the scan finds is the first of the qualifying candidates closest to the midpoint. */
  lemma {:induction false} BestInIsFirstClosest(ms: seq<real>)
    ensures BestIn(ms).Some? ==> IsFirstClosest(ms, BestIn(ms).value)
    decreases |ms|
  {
    if |ms| > 0 {
      var n := |ms| - 1;
      var prev := BestIn(ms[..n]);
      BestInIsFirstClosest(ms[..n]);
      BestInNoneIff(ms[..n]);
      assert forall i :: 0 <= i < n ==> ms[..n][i] == ms[i];
    }
  }

  /** At most one candidate is the first closest qualifier. */
  lemma FirstClosestUnique(ms: seq<real>, k: nat, l: nat)
    requires IsFirstClosest(ms, k) && IsFirstClosest(ms, l)
    ensures k == l
  {
  }

  /** The scan is characterised exactly by the first-closest property. */
  lemma BestInIff(ms: seq<real>, k: nat)
    ensures BestIn(ms) == Some(k) <==> IsFirstClosest(ms, k)
  {
    BestInIsFirstClosest(ms);
    if IsFirstClosest(ms, k) {
      BestInNoneIff(ms);
      FirstClosestUnique(ms, k, BestIn(ms).value);
    }
  }

  /** On equal scores the smallest candidate rate of the ascending grid wins. */
  lemma TieGoesToSmallestRate(ms: seq<real>, i: nat)
    requires |ms| == |Grids.RateGrid()| && BestIn(ms).Some?
    requires i < |ms| && InBand(ms[i]) && Score(ms[i]) == Score(ms[BestIn(ms).value])
    ensures Grids.RateGrid()[BestIn(ms).value] <= Grids.RateGrid()[i]
  {
    BestInIsFirstClosest(ms);
    var k := BestIn(ms).value;
    if k < i {
      Grids.RateGridAscending(k, i);
    }
  }

  /**
   * The search loop: every grid rate is simulated and scored; the best rate is replaced only
   * on a strictly smaller score. float('inf') as the initial best score is modelled by the
   * absence of a best rate.
   */
  method SearchBestRate(odeint: Odeint, weight: real, bolusDose: real) returns (bestRate: Option<real>)
    requires weight > 0.0 && SolverShape(odeint)
    ensures var best := BestIn(GridMeans(odeint, weight, bolusDose));
      bestRate.None? == best.None? &&
      (best.Some? ==> bestRate.value == Grids.RateGrid()[best.value])
  {
    var rates := Grids.RateGrid();
    ghost var ms := GridMeans(odeint, weight, bolusDose);
    ghost var bestIndex: Option<nat> := None;
    bestRate := None;
    var bestScore := 0.0;
    for i := 0 to |rates|
      invariant bestIndex == BestIn(ms[..i])
      invariant bestRate.None? == bestIndex.None?
      invariant bestIndex.Some? ==> bestIndex.value < i && bestRate.value == rates[bestIndex.value]
      invariant bestIndex.Some? ==> bestScore == Score(ms[bestIndex.value])
    {
      var meanCe := CandidateMeanCe(odeint, weight, bolusDose, rates[i]);
      BestInStep(ms, i);
      if InBand(meanCe) {
        var score := Score(meanCe);
        if bestRate.None? || score < bestScore {
          bestScore := score;
          bestRate := Some(rates[i]);
          bestIndex := Some(i);
        }
      }
    }
    assert ms[..|rates|] == ms;
  }

  /** Which "upper target" warning and which reduction advice is shown. */
  datatype ExceedWarning = WillExceedAt(minutes: real) | DoesNotExceed
  datatype ReductionWarning = ReduceAt(minutes: real) | NoReductionNeeded
  /** Which "lower target" message is shown. */
  datatype ReachInfo = ReachesAt(minutes: real) | DoesNotReach

  /** The result dictionary of calculate_propofol_infusion_flexible. */
  datatype Recommendation =
    | Success(
        weight: real, bolusDoseMgKg: real, bolusDoseMg: real,
        rateMgKgH: real, rateMgH: real, rateMgMin: real,
        expectedCe: real, targetRange: string,
        exceedTime: Option<real>, reachTime: Option<real>,
        warning: ExceedWarning, reductionWarning: ReductionWarning, reachInfo: ReachInfo,
        c1Curve: seq<real>, ceCurve: seq<real>, timePoints: seq<real>)
    | Failure(weight: real, bolusDoseMgKg: real, error: string)

  /**
   * First sample time at which p holds of the Ce curve on the time grid (the first element
   * of np.where), or None when it holds at no sample.
   */
  function CrossingTime(ce: seq<real>, p: real -> bool): (t: Option<real>)
    requires |ce| == |Grids.TimeGrid()|
    ensures t.None? <==> forall i :: 0 <= i < |ce| ==> !p(ce[i])
    ensures t.Some? ==> exists i :: 0 <= i < |ce| && Grids.TimeGrid()[i] == t.value && p(ce[i])
    ensures t.Some? ==> forall i :: 0 <= i < |ce| && Grids.TimeGrid()[i] < t.value ==> !p(ce[i])
  {
    var ts := Grids.TimeGrid();
    var first := FirstIndex(ce, p);
    if first.Some? then
      assert forall i :: 0 <= i < |ce| && ts[i] < ts[first.value] ==> i < first.value;
      Some(ts[first.value])
    else None
  }

  /** Whenever Ce goes above the band it has reached the band no later. */
  lemma ReachNoLaterThanExceed(ce: seq<real>)
    requires |ce| == |Grids.TimeGrid()|
    ensures var exceed, reach := CrossingTime(ce, ExceedsUpper), CrossingTime(ce, ReachesLower);
      exceed.Some? ==> reach.Some? && reach.value <= exceed.value
  {
  }

  /**
   * The report for the winning rate: the trajectory is simulated again with the same
   * parameters, initial state and grid as in the search, and the crossing times, the messages
   * and the expected Ce are derived from it.
   */
  function Report(odeint: Odeint, weight: real, bolusDose: real, rate: real): (r: Recommendation)
    requires weight > 0.0 && SolverShape(odeint)
    ensures r.Success? && r.weight == weight && r.bolusDoseMgKg == bolusDose && r.rateMgKgH == rate
    ensures r.expectedCe == CandidateMeanCe(odeint, weight, bolusDose, rate)
    ensures r.timePoints == Grids.TimeGrid() && |r.c1Curve| == |r.ceCurve| == |r.timePoints|
    ensures var sol := Simulate(odeint, weight, bolusDose, rate);
      r.c1Curve == PlasmaCurve(sol, Derive(weight).v1) && r.ceCurve == EffectSiteCurve(sol, Derive(weight).v1)
    ensures r.exceedTime == CrossingTime(r.ceCurve, ExceedsUpper)
    ensures r.reachTime == CrossingTime(r.ceCurve, ReachesLower)
    ensures r.warning == (if r.exceedTime.Some? then WillExceedAt(r.exceedTime.value) else DoesNotExceed)
    ensures r.reductionWarning == (if r.exceedTime.Some? then ReduceAt(r.exceedTime.value) else NoReductionNeeded)
    ensures r.reachInfo == (if r.reachTime.Some? then ReachesAt(r.reachTime.value) else DoesNotReach)
    ensures r.bolusDoseMg == bolusDose * weight && r.rateMgH == rate * weight
    ensures r.rateMgMin == RateMgPerMin(rate, weight)
  {
    var v1 := Derive(weight).v1;
    var sol := Simulate(odeint, weight, bolusDose, rate);
    var ce := EffectSiteCurve(sol, v1);
    var exceedTime := CrossingTime(ce, ExceedsUpper);
    var reachTime := CrossingTime(ce, ReachesLower);
    Success(weight, bolusDose, bolusDose * weight,
            rate, rate * weight, RateMgPerMin(rate, weight),
            SteadyMeanCe(ce), "1.2-1.4",
            exceedTime, reachTime,
            if exceedTime.Some? then WillExceedAt(exceedTime.value) else DoesNotExceed,
            if exceedTime.Some? then ReduceAt(exceedTime.value) else NoReductionNeeded,
            if reachTime.Some? then ReachesAt(reachTime.value) else DoesNotReach,
            PlasmaCurve(sol, v1), ce, Grids.TimeGrid())
  }

  /**
   * calculate_propofol_infusion_flexible: the search, then the report for the winning rate,
   * or the failure result when no candidate qualifies.
   */
  method Calculate(odeint: Odeint, weight: real, bolusDose: real) returns (r: Recommendation)
    requires weight > 0.0 && SolverShape(odeint)
    ensures r.weight == weight && r.bolusDoseMgKg == bolusDose
    ensures var ms := GridMeans(odeint, weight, bolusDose);
      r.Failure? <==> forall i :: 0 <= i < |ms| ==> !InBand(ms[i])
    ensures r.Failure? ==> r.error == "No suitable infusion rate found"
    ensures r.Success? ==> var best := BestIn(GridMeans(odeint, weight, bolusDose));
      best.Some? && r == Report(odeint, weight, bolusDose, Grids.RateGrid()[best.value])
    ensures r.Success? ==> InBand(r.expectedCe)
  {
    var bestRate := SearchBestRate(odeint, weight, bolusDose);
    ghost var ms := GridMeans(odeint, weight, bolusDose);
    BestInNoneIff(ms);
    if bestRate.Some? {
      BestInIsFirstClosest(ms);
      r := Report(odeint, weight, bolusDose, bestRate.value);
    } else {
      r := Failure(weight, bolusDose, "No suitable infusion rate found");
    }
  }

  /** Times (minutes) of the checkpoint table. */
  const KeyTimes: seq<real> := [0.5, 1.0, 2.0, 3.0, 5.0, 10.0, 15.0, 20.0, 30.0, 45.0, 60.0, 90.0, 120.0]

  /** Their sample indices on the 0.1-minute grid. */
  const KeyIndices: seq<nat> := [5, 10, 20, 30, 50, 100, 150, 200, 300, 450, 600, 900, 1200]

  /** One row of the checkpoint table: time, plasma and effect-site concentration. */
  datatype Checkpoint = Checkpoint(time: real, c1: real, ce: real)

  /** Each key time reads the curves at its nearest sample (np.abs(ts - t).argmin()). */
  function CheckpointTable(ts: seq<real>, c1: seq<real>, ce: seq<real>): (rows: seq<Checkpoint>)
    requires |ts| > 0 && |c1| == |ts| && |ce| == |ts|
    ensures |rows| == |KeyTimes|
  {
    seq(|KeyTimes|, i requires 0 <= i < |KeyTimes| =>
      var k := NearestIndex(ts, KeyTimes[i]);
      Checkpoint(KeyTimes[i], c1[k], ce[k]))
  }

  /** Every key time is a sample of the time grid, at its listed index. */
  lemma KeyTimesAreSamples(i: nat)
    requires i < |KeyTimes|
    ensures KeyIndices[i] < |Grids.TimeGrid()| && Grids.TimeGrid()[KeyIndices[i]] == KeyTimes[i]
  {
  }

  /** On the time grid the table reads, for every key time, exactly the sample taken at that time. */
  lemma CheckpointsAreExactSamples(c1: seq<real>, ce: seq<real>, i: nat)
    requires |c1| == |Grids.TimeGrid()| && |ce| == |Grids.TimeGrid()| && i < |KeyTimes|
    ensures var ts, row := Grids.TimeGrid(), CheckpointTable(Grids.TimeGrid(), c1, ce)[i];
      NearestIndex(ts, KeyTimes[i]) == KeyIndices[i] &&
      ts[KeyIndices[i]] == KeyTimes[i] &&
      row.time == KeyTimes[i] && row.c1 == c1[KeyIndices[i]] && row.ce == ce[KeyIndices[i]]
  {
    var ts := Grids.TimeGrid();
    KeyTimesAreSamples(i);
    forall a, b | 0 <= a < b < |ts| ensures ts[a] < ts[b] {
      Grids.TimeGridMonotone(a, b);
    }
    NearestIndexExact(ts, KeyTimes[i], KeyIndices[i]);
  }
}

/**
 * The array operations the calculator applies to sampled curves: a boolean-mask selection,
 * the mean, np.where(...)[0] with its first element, and argmin of a distance.
 */
module Series {
  import opened Options
  import Grids

  function Abs(x: real): (r: real)
    ensures r >= 0.0 && (r == x || r == -x)
  {
    if x < 0.0 then -x else x
  }

  /** The values xs[i] whose sample time ts[i] is strictly after the cutoff, in order. */
  function After(xs: seq<real>, ts: seq<real>, cutoff: real): (r: seq<real>)
    requires |xs| == |ts|
    ensures |r| <= |xs|
    decreases |xs|
  {
    if |xs| == 0 then []
    else (if ts[0] > cutoff then [xs[0]] else []) + After(xs[1..], ts[1..], cutoff)
  }

  /** When exactly the samples from index k on lie after the cutoff, the selection is the tail from k. */
  lemma {:induction false} AfterIsSuffix(xs: seq<real>, ts: seq<real>, cutoff: real, k: nat)
    requires |xs| == |ts| && k <= |xs|
    requires forall i :: 0 <= i < |ts| ==> (ts[i] > cutoff <==> i >= k)
    ensures After(xs, ts, cutoff) == xs[k..]
    decreases |xs|
  {
    if |xs| == 0 {
    } else if k == 0 {
      assert ts[0] > cutoff;
      forall i | 0 <= i < |ts[1..]| ensures ts[1..][i] > cutoff <==> i >= 0 {
        assert ts[1..][i] == ts[i + 1];
      }
      AfterIsSuffix(xs[1..], ts[1..], cutoff, 0);
      assert xs == [xs[0]] + xs[1..];
    } else {
      assert !(ts[0] > cutoff);
      forall i | 0 <= i < |ts[1..]| ensures ts[1..][i] > cutoff <==> i >= k - 1 {
        assert ts[1..][i] == ts[i + 1];
      }
      AfterIsSuffix(xs[1..], ts[1..], cutoff, k - 1);
      assert xs[1..][k - 1..] == xs[k..];
    }
  }

  /** The warm-up cutoff (minutes) that starts the steady-state window. */
  const SteadyCutoff: real := 10.0

  /** Steady-state window of a curve: the samples taken after the warm-up cutoff. */
  function SteadyWindow(ce: seq<real>, ts: seq<real>): (w: seq<real>)
    requires |ce| == |ts|
  {
    After(ce, ts, SteadyCutoff)
  }

  /** On the 0.1-minute grid the steady-state window is exactly the samples 101..1200. */
  lemma SteadyWindowOnTimeGrid(ce: seq<real>)
    requires |ce| == |Grids.TimeGrid()|
    ensures SteadyWindow(ce, Grids.TimeGrid()) == ce[101..]
    ensures |SteadyWindow(ce, Grids.TimeGrid())| == 1100
  {
    var ts := Grids.TimeGrid();
    forall i | 0 <= i < |ts| ensures ts[i] > SteadyCutoff <==> i >= 101 {
      assert ts[i] == i as real / 10.0;
    }
    AfterIsSuffix(ce, ts, SteadyCutoff, 101);
  }

  function Sum(xs: seq<real>): real
    decreases |xs|
  {
    if |xs| == 0 then 0.0 else Sum(xs[..|xs| - 1]) + xs[|xs| - 1]
  }

  /** Arithmetic mean (np.mean) of a non-empty sequence. */
  function Mean(xs: seq<real>): real
    requires |xs| > 0
  {
    Sum(xs) / |xs| as real
  }

  lemma {:induction false} SumBetween(xs: seq<real>, lo: real, hi: real)
    requires forall i :: 0 <= i < |xs| ==> lo <= xs[i] <= hi
    ensures |xs| as real * lo <= Sum(xs) <= |xs| as real * hi
    decreases |xs|
  {
    if |xs| > 0 {
      var n := |xs| - 1;
      SumBetween(xs[..n], lo, hi);
      assert (n + 1) as real * lo == n as real * lo + lo;
      assert (n + 1) as real * hi == n as real * hi + hi;
    }
  }

  /** The mean lies between any lower and upper bound of the samples. */
  lemma MeanBetween(xs: seq<real>, lo: real, hi: real)
    requires |xs| > 0
    requires forall i :: 0 <= i < |xs| ==> lo <= xs[i] <= hi
    ensures lo <= Mean(xs) <= hi
  {
    SumBetween(xs, lo, hi);
    DivideBetween(Sum(xs), |xs| as real, lo, hi);
  }

  lemma DivideBetween(s: real, n: real, lo: real, hi: real)
    requires n > 0.0 && n * lo <= s <= n * hi
    ensures lo <= s / n <= hi
  {
  }

  /**
   * The first index at which p holds, or None when it holds nowhere: the first element of
   * np.where(p(xs))[0] when that array is non-empty.
   */
  function FirstIndex(xs: seq<real>, p: real -> bool): (r: Option<nat>)
    ensures r.Some? ==> r.value < |xs| && p(xs[r.value]) && forall j :: 0 <= j < r.value ==> !p(xs[j])
    ensures r.None? <==> forall j :: 0 <= j < |xs| ==> !p(xs[j])
    decreases |xs|
  {
    if |xs| == 0 then None
    else if p(xs[0]) then Some(0)
    else
      var rest := FirstIndex(xs[1..], p);
      assert forall j :: 1 <= j < |xs| ==> xs[j] == xs[1..][j - 1];
      if rest.Some? then Some(rest.value + 1) else None
  }

  /** Whenever p implies q, q first holds no later than p does. */
  lemma FirstIndexWeaker(xs: seq<real>, p: real -> bool, q: real -> bool)
    requires forall x :: p(x) ==> q(x)
    ensures FirstIndex(xs, p).Some? ==>
      FirstIndex(xs, q).Some? && FirstIndex(xs, q).value <= FirstIndex(xs, p).value
  {
    var fp := FirstIndex(xs, p);
    if fp.Some? {
      var x := xs[fp.value];
      assert p(x);
      assert q(x);
    }
  }

  /** Distance of a sample time to a key time. */
  function Distance(t: real, key: real): real
  {
    Abs(t - key)
  }

  /** np.abs(ts - key).argmin(): the first index whose sample time is closest to the key. */
  function NearestIndex(ts: seq<real>, key: real): (r: nat)
    requires |ts| > 0
    ensures r < |ts|
    ensures forall j :: 0 <= j < |ts| ==> Distance(ts[r], key) <= Distance(ts[j], key)
    ensures forall j :: 0 <= j < r ==> Distance(ts[j], key) > Distance(ts[r], key)
    decreases |ts|
  {
    if |ts| == 1 then 0
    else
      var n := |ts| - 1;
      var k := NearestIndex(ts[..n], key);
      assert forall j :: 0 <= j < n ==> ts[..n][j] == ts[j];
      if Distance(ts[n], key) < Distance(ts[k], key) then n else k
  }

  /** On a strictly increasing grid that contains the key, the lookup finds the key's own sample. */
  lemma NearestIndexExact(ts: seq<real>, key: real, j: nat)
    requires j < |ts| && ts[j] == key
    requires forall a, b :: 0 <= a < b < |ts| ==> ts[a] < ts[b]
    ensures NearestIndex(ts, key) == j
  {
  }
}

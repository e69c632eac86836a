/**
  The stay-point aggregator: turns one window of the trajectory into a stay
  point whose position is the unweighted mean of the members' coordinates and
  whose arrival and departure are the first and last members' times.
 */
module Aggregator {
  import opened Trajectory

  /** A detected stay: centroid, arrival time and leaving time (milliseconds). */
  datatype StayPoint = StayPoint(lat: real, lon: real, arv: int, lev: int)

  /** The sum of `s`, folded from the left starting at 0 as `reduce` does. */
  function Sum(s: seq<real>): real
  {
    if s == [] then 0.0 else Sum(s[..|s| - 1]) + s[|s| - 1]
  }

  /** The arithmetic mean: the sum divided by the number of values. */
  function Mean(s: seq<real>): real
    requires |s| > 0
  {
    Sum(s) / |s| as real
  }

  function Lats(pts: seq<Point>): seq<real>
  {
    seq(|pts|, k requires 0 <= k < |pts| => pts[k].lat)
  }

  function Lons(pts: seq<Point>): seq<real>
  {
    seq(|pts|, k requires 0 <= k < |pts| => pts[k].lon)
  }

  /** Every window lies inside a trajectory of `n` points and is non-empty. */
  predicate ValidWindows(ws: seq<Window>, n: nat)
  {
    forall k :: 0 <= k < |ws| ==> ws[k].start < ws[k].end <= n
  }

  /** The stay point of the members `points[w.start..w.end]`. */
  function Summarize(points: seq<Point>, w: Window): StayPoint
    requires w.start < w.end <= |points|
  {
    var pts := points[w.start..w.end];
    StayPoint(Mean(Lats(pts)), Mean(Lons(pts)), pts[0].time, pts[|pts| - 1].time)
  }

  /** One stay point per window, in the windows' order. */
  function Summaries(points: seq<Point>, ws: seq<Window>): seq<StayPoint>
    requires ValidWindows(ws, |points|)
  {
    seq(|ws|, k requires 0 <= k < |ws| => Summarize(points, ws[k]))
  }

  /** Appending a window appends its summary. */
  lemma SummariesAppend(points: seq<Point>, ws: seq<Window>, w: Window)
    requires ValidWindows(ws, |points|) && w.start < w.end <= |points|
    ensures ValidWindows(ws + [w], |points|)
    ensures Summaries(points, ws + [w]) == Summaries(points, ws) + [Summarize(points, w)]
  {
    assert ValidWindows(ws + [w], |points|) by {
      forall k | 0 <= k < |ws + [w]| ensures (ws + [w])[k].start < (ws + [w])[k].end <= |points| {
        if k < |ws| { assert (ws + [w])[k] == ws[k]; }
      }
    }
  }

  /** A sum of values in [lo, hi] lies between |s| * lo and |s| * hi. */
  lemma {:induction false} SumBounds(s: seq<real>, lo: real, hi: real)
    requires forall k :: 0 <= k < |s| ==> lo <= s[k] <= hi
    ensures lo * |s| as real <= Sum(s) <= hi * |s| as real
  {
    if s != [] {
      var init := s[..|s| - 1];
      SumBounds(init, lo, hi);
      assert lo * |s| as real == lo * |init| as real + lo;
      assert hi * |s| as real == hi * |init| as real + hi;
    }
  }

  /** The mean of values in [lo, hi] lies in [lo, hi]. */
  lemma MeanWithin(s: seq<real>, lo: real, hi: real)
    requires |s| > 0
    requires forall k :: 0 <= k < |s| ==> lo <= s[k] <= hi
    ensures lo <= Mean(s) <= hi
  {
    SumBounds(s, lo, hi);
    var n := |s| as real;
    assert Mean(s) * n == Sum(s);
  }

  /** The mean of equal values is that value. */
  lemma MeanOfConstant(s: seq<real>, c: real)
    requires |s| > 0
    requires forall k :: 0 <= k < |s| ==> s[k] == c
    ensures Mean(s) == c
  {
    MeanWithin(s, c, c);
  }

  /** The centroid of a window lies in every latitude/longitude box that holds
      all of the window's members (no wrap-around at 180 degrees is made). */
  lemma CentroidInBox(points: seq<Point>, w: Window, south: real, north: real, west: real, east: real)
    requires w.start < w.end <= |points|
    requires forall k :: w.start <= k < w.end ==> south <= points[k].lat <= north
    requires forall k :: w.start <= k < w.end ==> west <= points[k].lon <= east
    ensures south <= Summarize(points, w).lat <= north
    ensures west <= Summarize(points, w).lon <= east
  {
    var pts := points[w.start..w.end];
    forall k | 0 <= k < |pts|
      ensures south <= Lats(pts)[k] <= north && west <= Lons(pts)[k] <= east
    {
      assert pts[k] == points[w.start + k];
    }
    MeanWithin(Lats(pts), south, north);
    MeanWithin(Lons(pts), west, east);
  }

  /** Arrival is the first member's time and departure the last member's; on a
      time-ordered trajectory the stay does not end before it begins. */
  lemma StayTimes(points: seq<Point>, w: Window)
    requires w.start < w.end <= |points|
    ensures Summarize(points, w).arv == points[w.start].time
    ensures Summarize(points, w).lev == points[w.end - 1].time
    ensures NonDecreasingTimes(points) ==> Summarize(points, w).arv <= Summarize(points, w).lev
  {
  }
}

/**
  What the scanner's output is: which windows it emits, in what order, how the
  two thresholds and the end of the trajectory decide it, and a worked example.
 */
module ScannerProperties {
  import opened Trajectory
  import opened Aggregator
  import opened Scanner

  /** A window the scanner may emit: non-empty, closed by an existing probe,
      every member after the anchor within the radius of the anchor (equality
      counts as inside), the closing probe strictly outside it, and strictly
      more than `seconds` between the anchor and the closing probe. */
  ghost predicate Qualifies(points: seq<Point>, meters: real, seconds: real, dist: Distance, w: Window)
  {
    && w.start < w.end < |points|
    && (forall m :: w.start < m < w.end ==> dist(points[w.start], points[m]) <= meters)
    && dist(points[w.start], points[w.end]) > meters
    && ElapsedSeconds(points[w.start], points[w.end]) > seconds
  }

  /** Every window of `ws` qualifies. */
  ghost predicate AllQualify(points: seq<Point>, meters: real, seconds: real, dist: Distance, ws: seq<Window>)
  {
    forall k :: 0 <= k < |ws| ==> Qualifies(points, meters, seconds, dist, ws[k])
  }

  lemma AllQualifyCons(points: seq<Point>, meters: real, seconds: real, dist: Distance, w: Window, ws: seq<Window>)
    requires Qualifies(points, meters, seconds, dist, w)
    requires AllQualify(points, meters, seconds, dist, ws)
    ensures AllQualify(points, meters, seconds, dist, [w] + ws)
  {
    forall k | 0 <= k < |[w] + ws|
      ensures Qualifies(points, meters, seconds, dist, ([w] + ws)[k])
    {
      if k > 0 { assert ([w] + ws)[k] == ws[k - 1]; }
    }
  }

  /** Every emitted window qualifies: its end is the first probe that left the
      radius of its anchor, and it lasted strictly longer than `seconds`. */
  lemma {:induction false} ScanFromQualifies(points: seq<Point>, meters: real, seconds: real, dist: Distance, i: nat)
    requires i <= |points|
    ensures AllQualify(points, meters, seconds, dist, ScanFrom(points, meters, seconds, dist, i))
    decreases |points| - i
  {
    if i < |points| {
      var j := Exit(points, meters, dist, i, i + 1);
      if j == |points| {
        ScanFromQualifies(points, meters, seconds, dist, i + 1);
      } else {
        ScanFromQualifies(points, meters, seconds, dist, j);
        if ElapsedSeconds(points[i], points[j]) > seconds {
          AllQualifyCons(points, meters, seconds, dist, Window(i, j), ScanFrom(points, meters, seconds, dist, j));
        }
      }
    }
  }

  /** Windows in increasing index order that do not overlap: each one ends
      at or before the start of the next. */
  ghost predicate InOrder(ws: seq<Window>)
  {
    forall k, l :: 0 <= k < l < |ws| ==> ws[k].end <= ws[l].start
  }

  /** The scanner emits its windows in order and without overlap. */
  lemma {:induction false} ScanFromOrdered(points: seq<Point>, meters: real, seconds: real, dist: Distance, i: nat)
    requires i <= |points|
    ensures InOrder(ScanFrom(points, meters, seconds, dist, i))
    decreases |points| - i
  {
    if i < |points| {
      var j := Exit(points, meters, dist, i, i + 1);
      if j == |points| {
        ScanFromOrdered(points, meters, seconds, dist, i + 1);
      } else {
        ScanFromOrdered(points, meters, seconds, dist, j);
      }
    }
  }

  /** The reported stay points are the summaries of the emitted windows, in
      the same order: arrival at the anchor's time, departure at the last
      member's time, and the mean latitude and longitude of the members. */
  lemma StayPointsSummarizeWindows(points: seq<Point>, meters: real, seconds: real, dist: Distance)
    ensures var ws, sp := Scan(points, meters, seconds, dist), StayPointsOf(points, meters, seconds, dist);
      && |sp| == |ws|
      && forall k :: 0 <= k < |sp| ==>
        && ws[k].start < ws[k].end < |points|
        && sp[k].arv == points[ws[k].start].time
        && sp[k].lev == points[ws[k].end - 1].time
        && sp[k].lat == Mean(Lats(points[ws[k].start..ws[k].end]))
        && sp[k].lon == Mean(Lons(points[ws[k].start..ws[k].end]))
  {
  }

  /** Summaries of ordered windows over a time-ordered trajectory are in
      chronological order, and each one ends at or before the next one begins. */
  lemma SummariesChronological(points: seq<Point>, ws: seq<Window>)
    requires NonDecreasingTimes(points)
    requires ValidWindows(ws, |points|) && InOrder(ws)
    ensures var sp := Summaries(points, ws);
      && (forall k :: 0 <= k < |sp| ==> sp[k].arv <= sp[k].lev)
      && (forall k, l :: 0 <= k < l < |sp| ==> sp[k].lev <= sp[l].arv)
  {
    var sp := Summaries(points, ws);
    forall k | 0 <= k < |sp|
      ensures sp[k].arv <= sp[k].lev
    {
      StayTimes(points, ws[k]);
    }
    forall k, l | 0 <= k < l < |sp|
      ensures sp[k].lev <= sp[l].arv
    {
      StayTimes(points, ws[k]);
      StayTimes(points, ws[l]);
      assert ws[k].end - 1 < ws[l].start;
    }
  }

  /** On a time-ordered trajectory the stay points are sorted by arrival and
      each stay ends at or before the next one begins. */
  lemma StayPointsChronological(points: seq<Point>, meters: real, seconds: real, dist: Distance)
    requires NonDecreasingTimes(points)
    ensures var sp := StayPointsOf(points, meters, seconds, dist);
      && (forall k :: 0 <= k < |sp| ==> sp[k].arv <= sp[k].lev)
      && (forall k, l :: 0 <= k < l < |sp| ==> sp[k].lev <= sp[l].arv)
      && (forall k, l :: 0 <= k < l < |sp| ==> sp[k].arv <= sp[l].arv)
  {
    ScanFromOrdered(points, meters, seconds, dist, 0);
    SummariesChronological(points, Scan(points, meters, seconds, dist));
  }

  /** No trailing stay: once every later point stays within the radius of
      every earlier one from index `a` on, nothing more is emitted, however
      long the tail lasts. */
  lemma {:induction false} StillTailEmitsNothing(points: seq<Point>, meters: real, seconds: real, dist: Distance, a: nat)
    requires a <= |points|
    requires forall x, y :: a <= x < y < |points| ==> dist(points[x], points[y]) <= meters
    ensures ScanFrom(points, meters, seconds, dist, a) == []
    decreases |points| - a
  {
    if a < |points| {
      var j := Exit(points, meters, dist, a, a + 1);
      assert j == |points|;
      StillTailEmitsNothing(points, meters, seconds, dist, a + 1);
    }
  }

  /** A trajectory whose points all lie within the radius of each other has no
      stay point at all, whatever time it spans. */
  lemma StationaryTrajectoryHasNoStayPoints(points: seq<Point>, meters: real, seconds: real, dist: Distance)
    requires forall x, y :: 0 <= x < y < |points| ==> dist(points[x], points[y]) <= meters
    ensures StayPointsOf(points, meters, seconds, dist) == []
  {
    StillTailEmitsNothing(points, meters, seconds, dist, 0);
  }

  /** A trajectory of no point or one point has no stay point. */
  lemma ShortTrajectoryHasNoStayPoints(points: seq<Point>, meters: real, seconds: real, dist: Distance)
    requires |points| <= 1
    ensures StayPointsOf(points, meters, seconds, dist) == []
  {
    StillTailEmitsNothing(points, meters, seconds, dist, 0);
  }

  /** When no two points are more than `seconds` apart, nothing is emitted. */
  lemma BriefTrajectoryHasNoStayPoints(points: seq<Point>, meters: real, seconds: real, dist: Distance)
    requires forall x, y :: 0 <= x < y < |points| ==> ElapsedSeconds(points[x], points[y]) <= seconds
    ensures StayPointsOf(points, meters, seconds, dist) == []
  {
    var ws := Scan(points, meters, seconds, dist);
    ScanFromQualifies(points, meters, seconds, dist, 0);
    assert ws != [] ==> Qualifies(points, meters, seconds, dist, ws[0]);
  }

  /** The single-step windows [k, k + 1) from index `i` on whose gap exceeds
      `seconds`: what a trajectory that leaves the radius at every step yields. */
  ghost function SingleSteps(points: seq<Point>, seconds: real, i: nat): seq<Window>
    requires i <= |points|
    decreases |points| - i
  {
    if i + 1 >= |points| then []
    else
      var head := if ElapsedSeconds(points[i], points[i + 1]) > seconds then [Window(i, i + 1)] else [];
      head + SingleSteps(points, seconds, i + 1)
  }

  /** Rapid movement: when each point is outside the radius of its predecessor,
      every anchor's window is that anchor alone, emitted exactly when the gap
      to the next point exceeds `seconds`. */
  lemma {:induction false} RapidMovementYieldsSingleSteps(points: seq<Point>, meters: real, seconds: real, dist: Distance, i: nat)
    requires i <= |points|
    requires forall k :: 0 <= k < |points| - 1 ==> dist(points[k], points[k + 1]) > meters
    ensures ScanFrom(points, meters, seconds, dist, i) == SingleSteps(points, seconds, i)
    decreases |points| - i
  {
    if i + 1 < |points| {
      ExitIsFirstLeaving(points, meters, dist, i, i + 1, i + 1);
      RapidMovementYieldsSingleSteps(points, meters, seconds, dist, i + 1);
      var head := if ElapsedSeconds(points[i], points[i + 1]) > seconds then [Window(i, i + 1)] else [];
      assert ScanFrom(points, meters, seconds, dist, i) == head + ScanFrom(points, meters, seconds, dist, i + 1);
    } else if i + 1 == |points| {
      ExitIsFirstLeaving(points, meters, dist, i, i + 1, i + 1);
    }
  }

  /** The windows of `ws` whose anchor-to-probe time exceeds `seconds`. */
  ghost function KeepLonger(points: seq<Point>, ws: seq<Window>, seconds: real): seq<Window>
    requires forall k :: 0 <= k < |ws| ==> ws[k].start < ws[k].end < |points|
  {
    if ws == [] then []
    else
      var head := if ElapsedSeconds(points[ws[0].start], points[ws[0].end]) > seconds then [ws[0]] else [];
      head + KeepLonger(points, ws[1..], seconds)
  }

  lemma KeepLongerCons(points: seq<Point>, w: Window, ws: seq<Window>, seconds: real)
    requires w.start < w.end < |points|
    requires forall k :: 0 <= k < |ws| ==> ws[k].start < ws[k].end < |points|
    ensures KeepLonger(points, [w] + ws, seconds)
      == (if ElapsedSeconds(points[w.start], points[w.end]) > seconds then [w] else []) + KeepLonger(points, ws, seconds)
  {
    assert ([w] + ws)[0] == w;
    assert ([w] + ws)[1..] == ws;
  }

  /** The duration threshold never moves the cursors, it only filters: the
      windows emitted under a higher threshold are exactly those emitted under
      a lower one whose duration also exceeds the higher threshold. */
  lemma {:induction false} RaisingThresholdFilters(points: seq<Point>, meters: real, low: real, high: real, dist: Distance, i: nat)
    requires low <= high && i <= |points|
    ensures ScanFrom(points, meters, high, dist, i) == KeepLonger(points, ScanFrom(points, meters, low, dist, i), high)
    decreases |points| - i
  {
    if i < |points| {
      var j := Exit(points, meters, dist, i, i + 1);
      if j == |points| {
        UnclosedHead(points, meters, low, dist, i);
        UnclosedHead(points, meters, high, dist, i);
        RaisingThresholdFilters(points, meters, low, high, dist, i + 1);
      } else {
        RaisingThresholdFilters(points, meters, low, high, dist, j);
        var e := ElapsedSeconds(points[i], points[j]);
        if e > low {
          EmittedHead(points, meters, low, dist, i, j);
          KeepLongerCons(points, Window(i, j), ScanFrom(points, meters, low, dist, j), high);
          if e > high {
            EmittedHead(points, meters, high, dist, i, j);
          } else {
            DroppedHead(points, meters, high, dist, i, j);
          }
        } else {
          DroppedHead(points, meters, low, dist, i, j);
          DroppedHead(points, meters, high, dist, i, j);
        }
      }
    }
  }

  /** Two points, the second strictly outside the radius and strictly more
      than `seconds` later: the first point alone is a stay point. */
  lemma SinglePointStay(p: Point, q: Point, meters: real, seconds: real, dist: Distance)
    requires dist(p, q) > meters && ElapsedSeconds(p, q) > seconds
    ensures StayPointsOf([p, q], meters, seconds, dist) == [StayPoint(p.lat, p.lon, p.time, p.time)]
  {
    var points := [p, q];
    assert Exit(points, meters, dist, 0, 1) == 1;
    assert Exit(points, meters, dist, 1, 2) == 2;
    assert ScanFrom(points, meters, seconds, dist, 1) == [];
    assert Scan(points, meters, seconds, dist) == [Window(0, 1)];
    var pts := points[0..1];
    assert Sum(Lats(pts)) == p.lat by { assert Lats(pts)[..0] == []; }
    assert Sum(Lons(pts)) == p.lon by { assert Lons(pts)[..0] == []; }
  }

  /** Both thresholds are strict. A probe at exactly `meters` counts as
      inside the radius, so it never closes a window, however much later it
      comes; a probe strictly outside after exactly `seconds` closes a window
      that is too short. Either way two points yield nothing. */
  lemma ThresholdsAreStrict(p: Point, q: Point, meters: real, seconds: real, dist: Distance)
    ensures dist(p, q) == meters ==> StayPointsOf([p, q], meters, seconds, dist) == []
    ensures dist(p, q) > meters && ElapsedSeconds(p, q) == seconds ==> StayPointsOf([p, q], meters, seconds, dist) == []
  {
    var points := [p, q];
    assert Exit(points, meters, dist, 1, 2) == 2;
    assert ScanFrom(points, meters, seconds, dist, 1) == [];
    if dist(p, q) == meters {
      assert Exit(points, meters, dist, 0, 1) == 2;
    } else if dist(p, q) > meters {
      assert Exit(points, meters, dist, 0, 1) == 1;
    }
  }

  /** A worked example: fixes at 0 s and 30 s at the origin, then one about
      222 m east at 90 s, with a radius of 100 m and a threshold of 20 s. The
      window [0, 2) is closed by the third fix 90 s after the anchor and is
      the one stay point, at the origin from 0 s to 30 s. */
  lemma WorkedExample(dist: Distance)
    requires dist(Point(0.0, 0.0, 0), Point(0.0, 0.0, 30000)) <= 100.0
    requires dist(Point(0.0, 0.0, 0), Point(0.0, 0.002, 90000)) > 100.0
    ensures StayPointsOf([Point(0.0, 0.0, 0), Point(0.0, 0.0, 30000), Point(0.0, 0.002, 90000)], 100.0, 20.0, dist)
      == [StayPoint(0.0, 0.0, 0, 30000)]
  {
    var points := [Point(0.0, 0.0, 0), Point(0.0, 0.0, 30000), Point(0.0, 0.002, 90000)];
    assert Exit(points, 100.0, dist, 0, 1) == 2;
    assert Exit(points, 100.0, dist, 2, 3) == 3;
    assert ScanFrom(points, 100.0, 20.0, dist, 2) == [];
    assert Scan(points, 100.0, 20.0, dist) == [Window(0, 2)];
    var pts := points[0..2];
    MeanOfConstant(Lats(pts), 0.0);
    MeanOfConstant(Lons(pts), 0.0);
  }
}

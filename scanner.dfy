/**
  The segmentation scanner. An anchor `i` and a probe `j` walk the trajectory
  once: the probe moves forward while it stays within `meters` of the anchor;
  the first probe outside the radius closes the window [i, j), which becomes a
  stay point when more than `seconds` passed between the anchor and that
  probe, and the anchor then jumps to the probe. A probe that runs off the end
  without leaving the radius moves the anchor by one, and emits nothing.
 */
module Scanner {
  import opened Trajectory
  import opened Aggregator

  /** The first probe at or after `j` that lies strictly farther than `meters`
      from the anchor `points[i]`, or `|points|` when there is none. */
  function Exit(points: seq<Point>, meters: real, dist: Distance, i: nat, j: nat): (k: nat)
    requires i < j <= |points|
    ensures j <= k <= |points|
    ensures forall m :: j <= m < k ==> dist(points[i], points[m]) <= meters
    ensures k < |points| ==> dist(points[i], points[k]) > meters
    decreases |points| - j
  {
    if j == |points| then j
    else if dist(points[i], points[j]) > meters then j
    else Exit(points, meters, dist, i, j + 1)
  }

  /** The windows the scanner emits once its anchor has reached `i`. */
  function ScanFrom(points: seq<Point>, meters: real, seconds: real, dist: Distance, i: nat): (ws: seq<Window>)
    requires i <= |points|
    ensures forall k :: 0 <= k < |ws| ==> i <= ws[k].start < ws[k].end < |points|
    decreases |points| - i
  {
    if i == |points| then []
    else
      var j := Exit(points, meters, dist, i, i + 1);
      if j == |points| then ScanFrom(points, meters, seconds, dist, i + 1)
      else if ElapsedSeconds(points[i], points[j]) > seconds then
        [Window(i, j)] + ScanFrom(points, meters, seconds, dist, j)
      else ScanFrom(points, meters, seconds, dist, j)
  }

  /** All windows the scanner emits, starting from anchor 0. */
  function Scan(points: seq<Point>, meters: real, seconds: real, dist: Distance): seq<Window>
  {
    ScanFrom(points, meters, seconds, dist, 0)
  }

  /** The stay points the scanner reports: one summary per emitted window. */
  function StayPointsOf(points: seq<Point>, meters: real, seconds: real, dist: Distance): seq<StayPoint>
  {
    Summaries(points, Scan(points, meters, seconds, dist))
  }

  /** The scan itself: nested loops over an anchor and a probe, pushing each
      stay point as its window is found. Terminates because every pass of the
      outer loop moves the anchor forward, ending with it at `|points|`. */
  method GetStayPoints(points: seq<Point>, meters: real, seconds: real, dist: Distance)
    returns (stayPoints: seq<StayPoint>)
    ensures stayPoints == StayPointsOf(points, meters, seconds, dist)
  {
    stayPoints := [];
    ghost var emitted: seq<Window> := [];
    ghost var all := Scan(points, meters, seconds, dist);
    var i := 0;
    while i < |points|
      invariant i <= |points|
      invariant ValidWindows(emitted, |points|)
      invariant emitted + ScanFrom(points, meters, seconds, dist, i) == all
      invariant stayPoints == Summaries(points, emitted)
      decreases |points| - i
    {
      ghost var anchor, before, beforeWindows := i, stayPoints, emitted;
      var j := i + 1;
      while j < |points|
        invariant i == anchor && stayPoints == before && emitted == beforeWindows
        invariant i + 1 <= j <= |points|
        invariant forall m :: i < m < j ==> dist(points[i], points[m]) <= meters
        decreases |points| - j
      {
        var dm := dist(points[i], points[j]);
        if dm > meters {
          var dt := ElapsedSeconds(points[i], points[j]);
          ExitIsFirstLeaving(points, meters, dist, i, i + 1, j);
          if dt > seconds {
            EmitStep(points, meters, seconds, dist, emitted, i, j);
            stayPoints := stayPoints + [Summarize(points, Window(i, j))];
            emitted := emitted + [Window(i, j)];
          } else {
            SkipStep(points, meters, seconds, dist, emitted, i, j);
          }
          i := j;
          break;
        }
        j := j + 1;
      }
      if j == |points| && i != j {
        ExitIsFirstLeaving(points, meters, dist, i, i + 1, j);
        AdvanceStep(points, meters, seconds, dist, emitted, i);
        i := i + 1;
      }
    }
  }

  /** Conversely, an index `k` such that every probe from `j` up to it stays
      within the radius, and that is either the end or strictly outside, is
      where the window closes. */
  lemma {:induction false} ExitIsFirstLeaving(points: seq<Point>, meters: real, dist: Distance, i: nat, j: nat, k: nat)
    requires i < j <= k <= |points|
    requires forall m :: j <= m < k ==> dist(points[i], points[m]) <= meters
    requires k < |points| ==> dist(points[i], points[k]) > meters
    ensures Exit(points, meters, dist, i, j) == k
    decreases k - j
  {
    if j < k {
      ExitIsFirstLeaving(points, meters, dist, i, j + 1, k);
    }
  }

  /** A window closed by probe `j` after more than `seconds` is emitted, and
      what is still to come is the scan from `j`. */
  lemma EmitStep(points: seq<Point>, meters: real, seconds: real, dist: Distance, emitted: seq<Window>, i: nat, j: nat)
    requires i < j < |points| && Exit(points, meters, dist, i, i + 1) == j
    requires ElapsedSeconds(points[i], points[j]) > seconds
    requires ValidWindows(emitted, |points|)
    requires emitted + ScanFrom(points, meters, seconds, dist, i) == Scan(points, meters, seconds, dist)
    ensures ValidWindows(emitted + [Window(i, j)], |points|)
    ensures (emitted + [Window(i, j)]) + ScanFrom(points, meters, seconds, dist, j) == Scan(points, meters, seconds, dist)
    ensures Summaries(points, emitted + [Window(i, j)]) == Summaries(points, emitted) + [Summarize(points, Window(i, j))]
  {
    var rest := ScanFrom(points, meters, seconds, dist, j);
    SummariesAppend(points, emitted, Window(i, j));
    EmittedHead(points, meters, seconds, dist, i, j);
    AppendAssociative(emitted, [Window(i, j)], rest);
  }

  lemma AppendAssociative<T>(a: seq<T>, b: seq<T>, c: seq<T>)
    ensures (a + b) + c == a + (b + c)
  {
  }

  /** The scan from an anchor whose window qualifies starts with that window. */
  lemma EmittedHead(points: seq<Point>, meters: real, seconds: real, dist: Distance, i: nat, j: nat)
    requires i < j < |points| && Exit(points, meters, dist, i, i + 1) == j
    requires ElapsedSeconds(points[i], points[j]) > seconds
    ensures ScanFrom(points, meters, seconds, dist, i) == [Window(i, j)] + ScanFrom(points, meters, seconds, dist, j)
  {
  }

  /** A window closed by probe `j` after at most `seconds` is dropped, and the
      anchor still jumps to `j`. */
  lemma SkipStep(points: seq<Point>, meters: real, seconds: real, dist: Distance, emitted: seq<Window>, i: nat, j: nat)
    requires i < j < |points| && Exit(points, meters, dist, i, i + 1) == j
    requires ElapsedSeconds(points[i], points[j]) <= seconds
    requires emitted + ScanFrom(points, meters, seconds, dist, i) == Scan(points, meters, seconds, dist)
    ensures emitted + ScanFrom(points, meters, seconds, dist, j) == Scan(points, meters, seconds, dist)
  {
    DroppedHead(points, meters, seconds, dist, i, j);
  }

  /** The scan from an anchor whose window is too short is the scan from the
      probe that closed it. */
  lemma DroppedHead(points: seq<Point>, meters: real, seconds: real, dist: Distance, i: nat, j: nat)
    requires i < j < |points| && Exit(points, meters, dist, i, i + 1) == j
    requires ElapsedSeconds(points[i], points[j]) <= seconds
    ensures ScanFrom(points, meters, seconds, dist, i) == ScanFrom(points, meters, seconds, dist, j)
  {
  }

  /** A probe that ran off the end without leaving the radius moves the
      anchor by exactly one and emits nothing. */
  lemma AdvanceStep(points: seq<Point>, meters: real, seconds: real, dist: Distance, emitted: seq<Window>, i: nat)
    requires i < |points| && Exit(points, meters, dist, i, i + 1) == |points|
    requires emitted + ScanFrom(points, meters, seconds, dist, i) == Scan(points, meters, seconds, dist)
    ensures emitted + ScanFrom(points, meters, seconds, dist, i + 1) == Scan(points, meters, seconds, dist)
  {
    UnclosedHead(points, meters, seconds, dist, i);
  }

  /** The scan from an anchor whose window never closes is the scan from the
      next index. */
  lemma UnclosedHead(points: seq<Point>, meters: real, seconds: real, dist: Distance, i: nat)
    requires i < |points| && Exit(points, meters, dist, i, i + 1) == |points|
    ensures ScanFrom(points, meters, seconds, dist, i) == ScanFrom(points, meters, seconds, dist, i + 1)
  {
  }
}

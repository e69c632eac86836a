# Stay-point detection, modelled in Dafny

The model covers `getStayPoints` in `src/views/Index.jsx`. This function takes
a GPS trajectory, a radius in meters and a duration in seconds. It returns one
stay point for each window `[i, j)` the scan closes. `j` is the first fix after
the anchor `i` that lies strictly outside the radius of `i`, and strictly more
than `seconds` passed between `i` and `j`. A stretch still inside the radius
when the trajectory ends is never reported.

The scan walks the trajectory once with two cursors, an anchor `i` and a probe
`j`. The probe moves forward while `points[j]` is within `meters` of
`points[i]`. The first probe strictly outside the radius closes the window
`[i, j)`. If strictly more than `seconds` passed between the anchor and that
probe, the window becomes a stay point. The anchor then jumps to `j` either
way. If the probe runs off the end while still inside the radius, nothing is
emitted and the anchor moves forward by one. Each stay point has:

- the mean latitude and the mean longitude of the window's members;
- the arrival time of the first member;
- the departure time of the last member.

Files and modules:

- `trajectory.dfy` (`Trajectory`): the canonical fix `Point(lat, lon, time)`
  with time in integer milliseconds, index windows, and the elapsed-time
  measure `(t_j - t_i) / 1000`. The distance is a parameter
  `dist: (Point, Point) -> real` that stands for the haversine function.
- `aggregator.dfy` (`Aggregator`): `Sum` as the left fold `reduce` performs,
  `Mean`, `Summarize` for one window and `Summaries` for a list of windows,
  plus lemmas on the centroid and the times.
- `scanner.dfy` (`Scanner`): `Exit` (where the inner loop stops), `ScanFrom` /
  `Scan` (the emitted windows, as a recursive reference definition),
  `StayPointsOf`, and the imperative `GetStayPoints`. That method keeps the
  source's two `while` loops, its `break` and its final `i++` guard, and is
  proved equal to `StayPointsOf`.
- `properties.dfy` (`ScannerProperties`): what the emitted windows and stay
  points satisfy.

The code has two behaviours that are easy to get wrong. The model reproduces
both and proves them:

- A trajectory whose points all lie within the radius of one another yields no
  stay point, however long it lasts. The tail is never emitted, because the
  end of the array only ever triggers the one-step anchor advance at line 226
  (`StationaryTrajectoryHasNoStayPoints`).
- A trajectory that leaves the radius at every step yields a one-point stay
  `[k, k+1)` for every step whose time gap exceeds `seconds`. It does not
  yield an empty result (`RapidMovementYieldsSingleSteps`, `SinglePointStay`).

## Model

| member | source | states |
|---|---|---|
| Scanner.Exit | src/views/Index.jsx:193-222 | The probe index where the inner loop stops is the first index at or after its start that is strictly farther than `meters` from the anchor, or the trajectory length if there is none. Every probe before it is within the radius, and equality counts as inside. |
| Scanner.ScanFrom | src/views/Index.jsx:189-227 | Every window emitted once the anchor has reached `i` satisfies `i <= start < end < length`. So every window starts at or after `i`, is non-empty, and its closing probe exists. Their order is stated by `ScanFromOrdered`. |
| Scanner.GetStayPoints | src/views/Index.jsx:184-236 | The nested-loop scan with `break` and the `j === length && i !== j` advance returns exactly the summaries of the windows the reference scan emits, in order. It terminates because the anchor strictly increases on every outer pass. |
| Scanner.ExitIsFirstLeaving | src/views/Index.jsx:194-222 | Converse of `Exit`: an index such that every probe before it is within the radius, and that is either the trajectory length or strictly outside, is exactly where the inner loop stops. |
| Aggregator.SummariesAppend | src/views/Index.jsx:208-213 | Pushing a window's stay point extends the output by exactly that stay point. |
| Aggregator.SumBounds | src/views/Index.jsx:209-210 | The left-fold sum of values in `[lo, hi]` lies between `n * lo` and `n * hi`. |
| Aggregator.MeanWithin | src/views/Index.jsx:209-210 | The mean computed as sum divided by length lies between any lower and upper bound of the values. |
| Aggregator.MeanOfConstant | src/views/Index.jsx:209-210 | The mean of equal values is that value. |
| Aggregator.CentroidInBox | src/views/Index.jsx:204-210 | A stay point's latitude and longitude lie inside every latitude/longitude box that holds all of the window's members. |
| Aggregator.StayTimes | src/views/Index.jsx:211-212 | Arrival is the time of the slice's first point and departure the time of its last point. On a time-ordered trajectory, arrival is not after departure. |
| ScannerProperties.ScanFromQualifies | src/views/Index.jsx:194-222 | Every emitted window `[i, j)` has every member after the anchor within `meters` of it (equality inside), `dist(points[i], points[j]) > meters`, and `(t_j - t_i) / 1000 > seconds` strictly. |
| ScannerProperties.ScanFromOrdered | src/views/Index.jsx:208-218 | Emitted windows come in increasing index order and are disjoint: each ends at or before the start of the next. |
| ScannerProperties.StayPointsSummarizeWindows | src/views/Index.jsx:204-213 | There is one stay point per emitted window, in the same order. For each, `arv` is the anchor's time, `lev` the last member's time, and `lat`/`lon` the mean over `points[i..j)`. |
| ScannerProperties.SummariesChronological | src/views/Index.jsx:208-217 | Over a time-ordered trajectory, the summaries of ordered windows have `arv <= lev`, and each ends no later than the next begins. |
| ScannerProperties.StayPointsChronological | src/views/Index.jsx:208-217 | With non-decreasing timestamps, the output is sorted by arrival, and each stay ends at or before the next one begins. |
| ScannerProperties.StillTailEmitsNothing | src/views/Index.jsx:222-226 | Once all points from index `a` onward lie within the radius of each other, nothing more is emitted, however long that tail lasts. |
| ScannerProperties.StationaryTrajectoryHasNoStayPoints | src/views/Index.jsx:191-226 | A trajectory whose points all lie within the radius of one another yields an empty result, whatever time it spans. |
| ScannerProperties.ShortTrajectoryHasNoStayPoints | src/views/Index.jsx:191-226 | Trajectories of length 0 or 1 yield an empty result. |
| ScannerProperties.BriefTrajectoryHasNoStayPoints | src/views/Index.jsx:201-202 | If no two points are more than `seconds` apart, the result is empty. |
| ScannerProperties.RapidMovementYieldsSingleSteps | src/views/Index.jsx:193-217 | When every point is outside the radius of its predecessor, the emitted windows are exactly the single-point windows `[k, k+1)` whose gap exceeds `seconds`, in order. |
| ScannerProperties.RaisingThresholdFilters | src/views/Index.jsx:199-218 | The duration threshold never moves the cursors. For `low <= high`, the windows emitted under `high` are exactly those emitted under `low` whose duration exceeds `high`, in the same order. |
| ScannerProperties.SinglePointStay | src/views/Index.jsx:199-213 | For two points where the second is outside the radius and strictly more than `seconds` later, the first point alone is a stay point, with its own position, arrival and departure. |
| ScannerProperties.ThresholdsAreStrict | src/views/Index.jsx:199-202 | For two points: if their distance is exactly `meters`, the second point counts as inside the radius and nothing is emitted, whatever the time gap. If the second point is strictly outside and exactly `seconds` later, the window is too short and nothing is emitted. |
| ScannerProperties.WorkedExample | src/views/Index.jsx:184-236 | A worked example: fixes at (0, 0) at 0 s and 30 s, then (0, 0.002) at 90 s, with radius 100 m and duration 20 s. It yields the single stay point at (0, 0) from 0 ms to 30000 ms. |

## Left out

- `haversine` (src/views/Index.jsx:166-182): the trigonometry on floating point is not modelled. The distance is an arbitrary function argument, and the scanner only compares its value with `meters`. Its symmetry and its zero on equal points are therefore not stated.
- The field fallbacks `latitude || lat` and `longitude || lng || lon` (src/views/Index.jsx:170-173) are left out. The model has a single point shape.
- `new Date(...)` parsing of timestamps (src/views/Index.jsx:201) is left out. Times are integer milliseconds.
- The `try`/`catch` that logs and returns `null` (src/views/Index.jsx:185, 231-235) is left out. With well-formed points, nothing in the scan can throw.
- Floating point: sums, means and the division by 1000 are exact reals. IEEE rounding, and NaN comparing false, are not modelled.
- The thresholds arrive from text inputs, and JavaScript coerces them to numbers in `>`. The model takes them as reals.
- The UI in `Index()` (src/views/Index.jsx:9-164) is left out: GPX loading, map bounds, inputs and rendering. The button is disabled for `seconds <= 0 || meters <= 0` (line 124), but `getStayPoints` does not rely on that. So the model has no such precondition, and every property holds for any thresholds.
- src/index.js is React bootstrap only.
- Idempotence needs no lemma, because Dafny functions are deterministic. Termination is not stated as a lemma. It is carried by the `decreases` measures: `|points| - j` for the probe in `Exit` and in the inner loop, and `|points| - i` for the anchor in `ScanFrom` and in the outer loop of `GetStayPoints`.

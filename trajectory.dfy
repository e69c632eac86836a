/**
  The data the stay-point core reads: a trajectory of timestamped positions,
  index windows over it, and the two measurements the scanner compares with
  its thresholds (distance in meters, elapsed time in seconds).
 */
module Trajectory {

  /** One GPS fix in its canonical shape: degrees of latitude and longitude,
      and the fix time as integer milliseconds since some epoch. */
  datatype Point = Point(lat: real, lon: real, time: int)

  /** The candidate range [start, end) of trajectory indices. `end` is the
      probe that closed the window; it is not one of the window's members. */
  datatype Window = Window(start: nat, end: nat)

  /** Great-circle distance in meters between two fixes. The haversine formula
      behind it is not modelled: the scanner only ever compares its value with
      the radius, so any function may stand for it. */
  type Distance = (Point, Point) -> real

  /** Time from `origin` to `dest` in seconds: the difference of the two
      dates in milliseconds, divided by 1000. */
  function ElapsedSeconds(origin: Point, dest: Point): real
  {
    (dest.time - origin.time) as real / 1000.0
  }

  /** The order the trajectory is assumed to come in. */
  ghost predicate NonDecreasingTimes(points: seq<Point>)
  {
    forall a, b :: 0 <= a <= b < |points| ==> points[a].time <= points[b].time
  }
}

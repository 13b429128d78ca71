/**
 * The ratio calculator: mouth and eye aspect ratios computed from landmark
 * points. The Euclidean distance itself is floating-point numerics and is
 * supplied by the caller as an arrow over points.
 */
module Ratios {

  /** A landmark position in frame pixel coordinates. */
  datatype Point = Point(x: real, y: real)

  /** The distance between two landmarks (Euclidean in the running system). */
  type Distance = (Point, Point) -> real

  ghost predicate NonNegative(dist: Distance)
  {
    forall p, q :: dist(p, q) >= 0.0
  }

  /**
   * Mouth aspect ratio: the distance between mouth points 3 and 6 over the
   * distance between points 0 and 4, or 0 when the latter is 0.
   */
  function CalculateMar(mouth: seq<Point>, dist: Distance): (r: real)
    requires |mouth| >= 7
    ensures dist(mouth[0], mouth[4]) == 0.0 ==> r == 0.0
    ensures dist(mouth[0], mouth[4]) != 0.0 ==> r * dist(mouth[0], mouth[4]) == dist(mouth[3], mouth[6])
    ensures r == 0.0 <==> dist(mouth[0], mouth[4]) == 0.0 || dist(mouth[3], mouth[6]) == 0.0
    ensures NonNegative(dist) ==> r >= 0.0
  {
    var vertical := dist(mouth[3], mouth[6]);
    var horizontal := dist(mouth[0], mouth[4]);
    if horizontal == 0.0 then 0.0 else vertical / horizontal
  }

  /**
   * Eye aspect ratio: the mean of the lid distances 1-5 and 2-4 over the
   * corner distance 0-3, or 0 when the corner distance is 0.
   */
  function CalculateEar(eye: seq<Point>, dist: Distance): (r: real)
    requires |eye| >= 6
    ensures dist(eye[0], eye[3]) == 0.0 ==> r == 0.0
    ensures dist(eye[0], eye[3]) != 0.0 ==>
              r * (2.0 * dist(eye[0], eye[3])) == dist(eye[1], eye[5]) + dist(eye[2], eye[4])
    ensures NonNegative(dist) ==>
              r >= 0.0 &&
              (r == 0.0 <==> dist(eye[0], eye[3]) == 0.0 || dist(eye[1], eye[5]) + dist(eye[2], eye[4]) == 0.0)
  {
    var vertical1 := dist(eye[1], eye[5]);
    var vertical2 := dist(eye[2], eye[4]);
    var horizontal := dist(eye[0], eye[3]);
    if horizontal == 0.0 then 0.0 else (vertical1 + vertical2) / (2.0 * horizontal)
  }

  /** The per-face eye ratio: the mean of the left and right eye ratios. */
  function MeanEar(left: real, right: real): (r: real)
    ensures left <= right ==> left <= r <= right
    ensures right <= left ==> right <= r <= left
    ensures r - left == right - r
  {
    (left + right) / 2.0
  }

  /** The landmark sets extracted from one detected face. */
  datatype Face = Face(mouth: seq<Point>, leftEye: seq<Point>, rightEye: seq<Point>)

  predicate WellFormed(face: Face)
  {
    |face.mouth| == 7 && |face.leftEye| == 6 && |face.rightEye| == 6
  }
}

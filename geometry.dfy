/** Points, what the script takes from its host (trigonometry and the
    distance helper), and the fixed-length position trails that both kinds
    of entity keep. */
module Geometry {

  /** One entry of a `coordinates` trail, the JavaScript pair `[x, y]`. */
  datatype Point = Point(x: real, y: real)

  /** What the script takes from its host, left uninterpreted: `Math.PI`,
      `Math.cos`, `Math.sin` and `Math.atan2`, and the script's own
      `calculateDistance`, the floating-point Euclidean distance between two
      points. */
  datatype Host = Host(
    pi: real,
    cos: real -> real,
    sin: real -> real,
    atan2: (real, real) -> real,
    calculateDistance: (real, real, real, real) -> real)

  /** What the constructors build: `n` copies of the spawn point. */
  function Repeat(p: Point, n: nat): (r: seq<Point>)
    ensures |r| == n
    ensures forall k :: 0 <= k < n ==> r[k] == p
  {
    if n == 0 then [] else Repeat(p, n - 1) + [p]
  }

  /** `coordinates.pop(); coordinates.unshift([x, y]);` — drop the oldest
      entry (if any) and put `p` in front. */
  function Shift(trail: seq<Point>, p: Point): (r: seq<Point>)
    ensures |trail| > 0 ==> |r| == |trail|
    ensures |r| > 0 && r[0] == p
    ensures forall i :: 0 < i < |trail| ==> r[i] == trail[i - 1]
  {
    [p] + (if |trail| == 0 then [] else trail[..|trail| - 1])
  }

  /** `b` to the power `k`. */
  function Pow(b: real, k: nat): real
  {
    if k == 0 then 1.0 else b * Pow(b, k - 1)
  }

}

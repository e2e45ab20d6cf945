/** Boat speed from a table over wind angle and wind speed, over the reals: src/polar.c. */
module PolarSpec {

  /** Wind angles and wind speeds in order, and a boat speed for each pair of them. */
  datatype Table = Table(twa: seq<real>, tws: seq<real>, spd: seq<seq<real>>)

  ghost predicate Sorted(v: seq<real>) {
    forall i, j | 0 <= i < j < |v| :: v[i] <= v[j]
  }

  ghost predicate Accepted(t: Table) {
    && t.twa != [] && t.tws != [] && Sorted(t.twa) && Sorted(t.tws)
    && |t.spd| == |t.twa| && forall i | 0 <= i < |t.spd| :: |t.spd[i]| == |t.tws|
  }

  // ----- finding the place in an axis

  function Clamp(v: seq<real>, x: real): (c: real)
    requires v != []
    ensures Sorted(v) ==> v[0] <= c <= v[|v| - 1]
    ensures v[0] <= x <= v[|v| - 1] ==> c == x
  {
    var y := if x < v[0] then v[0] else x;
    if y > v[|v| - 1] then v[|v| - 1] else y
  }

  function BracketFrom(v: seq<real>, x: real, i: nat): (r: nat)
    requires i + 2 <= |v|
    ensures i <= r <= |v| - 2
    ensures forall k | i < k <= r :: v[k] <= x
    ensures r < |v| - 2 ==> x < v[r + 1]
    decreases |v| - i
  {
    if i == |v| - 2 || x < v[i + 1] then i else BracketFrom(v, x, i + 1)
  }

  /** The index whose interval holds x. */
  function Bracket(v: seq<real>, x: real): (r: nat)
    requires v != []
    ensures r < |v| && (|v| > 1 ==> r + 1 < |v|)
  {
    if |v| < 2 then 0 else BracketFrom(v, x, 0)
  }

  /** The other end of the interval. */
  function Upper(v: seq<real>, i: nat): (r: nat)
    requires i < |v| && (|v| > 1 ==> i + 1 < |v|)
    ensures i <= r < |v|
  {
    if |v| > 1 then i + 1 else i
  }

  /** How far x is in its interval; nothing in an empty one. */
  function Weight(v: seq<real>, x: real): real
    requires v != []
  {
    var i := Bracket(v, x);
    var d := v[Upper(v, i)] - v[i];
    if d > 0.0 then (x - v[i]) / d else 0.0
  }

  // ----- folding the angle

  /** fmod(x, 360): the rest has the sign of x. */
  function Fmod360(x: real): real {
    if x >= 0.0 then x - 360.0 * (x / 360.0).Floor as real else -(-x - 360.0 * (-x / 360.0).Floor as real)
  }

  function Fold(x: real): real {
    var m := Fmod360(x);
    var a := if m < 0.0 then m + 360.0 else m;
    if a > 180.0 then 360.0 - a else a
  }

  // ----- the speed

  function Mix(f: real, a: real, b: real): real { (1.0 - f) * a + f * b }

  /** polar_speed. */
  function Speed(t: Table, twa: real, tws: real): real
    requires t.twa != [] && t.tws != [] ==> Accepted(t)
  {
    if t.twa == [] || t.tws == [] then 0.0
    else
      var a, w := Clamp(t.twa, Fold(twa)), Clamp(t.tws, tws);
      var i, j := Bracket(t.twa, a), Bracket(t.tws, w);
      var i2, j2 := Upper(t.twa, i), Upper(t.tws, j);
      var fa, fw := Weight(t.twa, a), Weight(t.tws, w);
      (1.0 - fa) * (1.0 - fw) * t.spd[i][j] + fa * (1.0 - fw) * t.spd[i2][j]
      + (1.0 - fa) * fw * t.spd[i][j2] + fa * fw * t.spd[i2][j2]
  }
}

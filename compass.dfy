/** The reported angle: the dominant direction (dx, dy) is turned into a
    compass bearing, 0 degrees pointing up and growing clockwise, and brought
    into [0, 360) with f64 `rem_euclid`. Arithmetic is exact here. */
module Compass {
  import opened Common

  const FullTurn: real := 360.0

  /** Bearing of the image's "up" direction in the atan2 frame, in degrees. */
  const UpOffset: real := 90.0

  function Abs(x: real): real { if x < 0.0 then -x else x }

  predicate IsInteger(q: real) { q.Floor as real == q }

  /** The integer part of q, rounding toward zero. */
  function Trunc(q: real): (t: int)
    ensures q >= 0.0 ==> 0.0 <= q - t as real < 1.0
    ensures q < 0.0 ==> -1.0 < q - t as real <= 0.0
  {
    if q >= 0.0 then q.Floor else -((-q).Floor)
  }

  /** f64 `%`: what remains of x after removing a whole number of m's,
      counted by truncating division, so the remainder carries the sign of x. */
  function FRem(x: real, m: real): real
    requires m != 0.0
  {
    x - Trunc(x / m) as real * m
  }

  /** f64 `rem_euclid`: the `%` remainder, with |m| added once when it is
      negative. */
  function RemEuclid(x: real, m: real): real
    requires m != 0.0
  {
    var r := FRem(x, m);
    if r < 0.0 then r + Abs(m) else r
  }

  /** With the modulus 360 the remainder of `%` lies strictly between -360
      and 360, with the sign of x, and x minus it is a whole number of turns. */
  lemma FRemFullTurn(x: real)
    ensures -FullTurn < FRem(x, FullTurn) < FullTurn
    ensures x >= 0.0 ==> FRem(x, FullTurn) >= 0.0
    ensures x <= 0.0 ==> FRem(x, FullTurn) <= 0.0
    ensures IsInteger((x - FRem(x, FullTurn)) / FullTurn)
  {
    var t := Trunc(x / FullTurn);
    assert (x - FRem(x, FullTurn)) / FullTurn == t as real;
  }

  /** rem_euclid by 360 lands in [0, 360) and moves x by whole turns only. */
  lemma RemEuclidFullTurn(x: real)
    ensures 0.0 <= RemEuclid(x, FullTurn) < FullTurn
    ensures IsInteger((x - RemEuclid(x, FullTurn)) / FullTurn)
  {
    FRemFullTurn(x);
    var k := (x - FRem(x, FullTurn)) / FullTurn;
    if FRem(x, FullTurn) < 0.0 {
      assert (x - RemEuclid(x, FullTurn)) / FullTurn == k - 1.0;
      assert (k - 1.0).Floor == k.Floor - 1;
    }
  }

  /** rem_euclid by 360 is characterised by those two promises: the only
      value in [0, 360) that differs from x by whole turns is RemEuclid(x, 360). */
  lemma RemEuclidUnique(x: real, r: real)
    requires 0.0 <= r < FullTurn && IsInteger((x - r) / FullTurn)
    ensures r == RemEuclid(x, FullTurn)
  {
    RemEuclidFullTurn(x);
    var e := RemEuclid(x, FullTurn);
    var i, j := ((x - e) / FullTurn).Floor, ((x - r) / FullTurn).Floor;
    assert (r - e) / FullTurn == (i - j) as real;
    assert -1 < i - j < 1;
  }

  /** rem_euclid by 360 is the floored remainder x - 360 * floor(x / 360). */
  lemma RemEuclidIsFlooredRemainder(x: real)
    ensures RemEuclid(x, FullTurn) == x - FullTurn * (x / FullTurn).Floor as real
  {
    var f := (x / FullTurn).Floor;
    var r := x - FullTurn * f as real;
    assert (x - r) / FullTurn == f as real;
    RemEuclidUnique(x, r);
  }

  /** An angle already in [0, 360) is left as it is, so normalising twice
      changes nothing. */
  lemma RemEuclidKeepsNormalised(x: real)
    requires 0.0 <= x < FullTurn
    ensures RemEuclid(x, FullTurn) == x
  {
    RemEuclidUnique(x, x);
  }

  /** The compass bearing of image direction (dx, dy): y is flipped so that up
      is positive, atan2 gives the mathematical angle, and 90 degrees minus it,
      normalised, makes 0 point up and angles grow clockwise. */
  function CompassAngle(dx: real, dy: real, trig: Trig): (angle: real)
    ensures 0.0 <= angle < FullTurn
    ensures IsInteger(((UpOffset - trig.toDegrees(trig.atan2(-dy, dx))) - angle) / FullTurn)
  {
    var cartesianDegrees := trig.toDegrees(trig.atan2(-dy, dx));
    RemEuclidFullTurn(UpOffset - cartesianDegrees);
    RemEuclid(UpOffset - cartesianDegrees, FullTurn)
  }
}

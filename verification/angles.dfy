/**
  Angle arithmetic of the follow camera: wrapping an angle in degrees into
  [-180, 180] the way `angleMod` does (C `fmod`, which truncates toward zero,
  followed by one correction step), and the bounded follow step `followAng`.
  Floats are idealised as reals.
 */
module Angles {
  import opened Util

  /** `d` is a whole number of turns (a multiple of 360 degrees). */
  ghost predicate WholeTurns(d: real) {
    (d / 360.0).Floor as real == d / 360.0
  }

  /** Rounding toward zero, the quotient C's `fmod` uses. */
  function Trunc(x: real): (t: int)
    ensures 0.0 <= x ==> t as real <= x < t as real + 1.0
    ensures x < 0.0 ==> t as real - 1.0 < x <= t as real
  {
    if x >= 0.0 then x.Floor else -((-x).Floor)
  }

  /** `std::fmod(a, 360)`: remainder with the sign of `a`. */
  function Fmod360(a: real): (r: real)
    ensures 0.0 <= a ==> 0.0 <= r < 360.0
    ensures a < 0.0 ==> -360.0 < r <= 0.0
    ensures WholeTurns(a - r)
  {
    var t := Trunc(a / 360.0);
    var r := a - 360.0 * t as real;
    assert a - r == 360.0 * t as real;
    WholeTurnsOf(t);
    r
  }

  /** A multiple of 360 is a whole number of turns. */
  lemma WholeTurnsOf(k: int)
    ensures WholeTurns(360.0 * k as real)
  {
    assert (360.0 * k as real) / 360.0 == k as real;
    assert (k as real).Floor == k;
  }

  /** `angleMod` (Game/camera.cpp): the representative of `a` in [-180, 180]. */
  function AngleMod(a: real): (r: real)
    ensures -180.0 <= r <= 180.0
    ensures WholeTurns(a - r)
    ensures -180.0 <= a <= 180.0 ==> r == a
  {
    var m := Fmod360(a);
    var m1 := if m < -180.0 then m + 360.0 else m;
    var m2 := if m1 > 180.0 then m1 - 360.0 else m1;
    WholeTurnsAdd(a - m, if m < -180.0 then -1 else if m > 180.0 then 1 else 0);
    m2
  }

  /** Adding whole turns keeps a whole number of turns. */
  lemma WholeTurnsAdd(d: real, n: int)
    requires WholeTurns(d)
    ensures WholeTurns(d + 360.0 * n as real)
  {
    var f := (d / 360.0).Floor;
    assert d / 360.0 == f as real;
    assert d == 360.0 * f as real;
    assert d + 360.0 * n as real == 360.0 * (f + n) as real;
    WholeTurnsOf(f + n);
  }

  /** Two values a whole number of turns apart, one strictly inside (-180, 180),
      wrap to that one. */
  lemma WrapUnique(a: real, x: real)
    requires WholeTurns(a - x)
    requires -180.0 < x < 180.0
    ensures AngleMod(a) == x
  {
    var r := AngleMod(a);
    var p := ((a - x) / 360.0).Floor;
    var q := ((a - r) / 360.0).Floor;
    assert (r - x) / 360.0 == (p - q) as real;
    var n := p - q;
    assert -1 < n < 1;
  }

  /** A multiple of 360 moved by an exact difference keeps its representative. */
  lemma WholeTurnsShift(a: real, b: real, c: real)
    requires WholeTurns(a - b)
    ensures WholeTurns((a - c) - (b - c))
  {
    assert (a - c) - (b - c) == a - b;
  }

  /** The signed turn step of `followAng` before it is added to the angle. */
  function FollowShift(da: real, speed: real): real {
    var shift :=
      if da > 0.0 then Min(da, speed)
      else if da < 0.0 then -Min(-da, speed)
      else 0.0;
    if da > 46.0 then da - 45.0
    else if da < -46.0 then da + 45.0
    else shift
  }

  /** `followAng` (Game/camera.cpp): one bounded step of `ang` toward `dest`.
      With `da` the wrapped gap: a gap smaller than the budget snaps; a gap
      within the 46-degree band moves by exactly the budget toward `dest`. */
  function FollowAng(ang: real, dest: real, speed: real): (r: real)
    ensures Abs(AngleMod(dest - ang)) < speed ==> r == dest
    ensures speed <= Abs(AngleMod(dest - ang)) <= 46.0 ==>
              && (AngleMod(dest - ang) > 0.0 ==> r == ang + speed)
              && (AngleMod(dest - ang) < 0.0 ==> r == ang - speed)
              && (AngleMod(dest - ang) == 0.0 ==> r == ang)
    ensures speed <= Abs(AngleMod(dest - ang)) ==> r == ang + FollowShift(AngleMod(dest - ang), speed)
  {
    var da := AngleMod(dest - ang);
    if Abs(da) < speed then dest else ang + FollowShift(da, speed)
  }

  /** Beyond the 46-degree band the step leaves the wrapped gap at exactly
      45 degrees on the same side (the fast catch-up). */
  lemma {:induction false} FollowAngCatchUp(ang: real, dest: real, speed: real)
    requires speed <= Abs(AngleMod(dest - ang))
    ensures AngleMod(dest - ang) > 46.0 ==> AngleMod(dest - FollowAng(ang, dest, speed)) == 45.0
    ensures AngleMod(dest - ang) < -46.0 ==> AngleMod(dest - FollowAng(ang, dest, speed)) == -45.0
  {
    var da := AngleMod(dest - ang);
    var r := FollowAng(ang, dest, speed);
    if da > 46.0 {
      assert dest - r == (dest - ang) - (da - 45.0);
      WholeTurnsShift(dest - ang, da, da - 45.0);
      WrapUnique(dest - r, 45.0);
    } else if da < -46.0 {
      assert dest - r == (dest - ang) - (da + 45.0);
      WholeTurnsShift(dest - ang, da, da + 45.0);
      WrapUnique(dest - r, -45.0);
    }
  }

  /** With a non-negative budget the step never overshoots: the new wrapped
      gap lies between 0 and the old one, on the same side. */
  lemma {:induction false} FollowAngNoOvershoot(ang: real, dest: real, speed: real)
    requires 0.0 <= speed
    ensures var da := AngleMod(dest - ang);
            var g := AngleMod(dest - FollowAng(ang, dest, speed));
            (0.0 <= da ==> 0.0 <= g <= da) && (da <= 0.0 ==> da <= g <= 0.0)
  {
    var da := AngleMod(dest - ang);
    var r := FollowAng(ang, dest, speed);
    if Abs(da) < speed {
      assert dest - r == 0.0;
    } else {
      var s := FollowShift(da, speed);
      assert 0.0 < da ==> 0.0 <= s <= da;
      assert da < 0.0 ==> da <= s <= 0.0;
      assert dest - r == (dest - ang) - s;
      WholeTurnsShift(dest - ang, da, s);
      assert -180.0 < da - s < 180.0;
      WrapUnique(dest - r, da - s);
    }
  }
}

/**
  The view-distance resolution of `Camera::view` (Game/camera.cpp): the
  desired distance per mode, shortened by the obstruction each cast ray
  reports. The rays themselves (built from matrix inverses and answered by
  the physics engine) are inputs: for each, `dist0` is the length of the ray
  and `dist1` the distance to its hit point.
 */
module CameraView {
  import opened Util
  import opened Camera

  /** Ranges are in metres, distances in centimetres. */
  const CmPerRange: real := 100.0

  /** The floor under an obstructed distance. */
  const MinDist: real := 25.0

  /** The distance `view` aims for before obstruction: Mobsi uses maxRange,
      Dialog the dialog distance, every other mode the current range clamped
      into [minRange, maxRange] (raise first, then cap). */
  function DesiredDistance(c: Cam, d: CamDef): (r: real)
    ensures c.mode == Mobsi ==> r == d.maxRange * CmPerRange
    ensures c.mode == Dialog ==> r == c.dlgDist
    ensures c.mode != Mobsi && c.mode != Dialog ==> r <= d.maxRange * CmPerRange
    ensures c.mode != Mobsi && c.mode != Dialog && d.minRange <= d.maxRange ==>
              d.minRange * CmPerRange <= r
    ensures c.mode != Mobsi && c.mode != Dialog && d.minRange <= c.state.range <= d.maxRange ==>
              r == c.state.range * CmPerRange
    ensures c.mode != Mobsi && c.mode != Dialog && d.minRange <= d.maxRange ==>
              r == ClampRange(c.state.range, d) * CmPerRange
    ensures c.mode != Mobsi && c.mode != Dialog && d.maxRange < d.minRange ==>
              r == d.maxRange * CmPerRange
  {
    if c.mode == Mobsi then d.maxRange * CmPerRange
    else if c.mode == Dialog then c.dlgDist
    else
      var z1 := if c.state.range < d.minRange then d.minRange else c.state.range;
      var z2 := if z1 > d.maxRange then d.maxRange else z1;
      z2 * CmPerRange
  }

  /** One cast ray's answer. */
  datatype Ray = Ray(dist0: real, dist1: real)

  /** The distance one ray allows: shortened by how far the hit falls short
      of the ray's end, but never below the floor. */
  function RayLimit(dist: real, ray: Ray): (r: real)
    ensures MinDist <= r
    ensures ray.dist1 >= ray.dist0 ==> r == Max(dist, MinDist)
    ensures r <= Max(dist, MinDist)
  {
    Max(dist - Max(0.0, ray.dist0 - ray.dist1), MinDist)
  }

  /** Reference: the desired distance folded with `Min` over every ray's limit. */
  function MinFold(dist: real, rays: seq<Ray>): (r: real)
    ensures r <= dist
    ensures Min(dist, MinDist) <= r
    ensures forall i | 0 <= i < |rays| :: r <= RayLimit(dist, rays[i])
    ensures r == dist || exists i | 0 <= i < |rays| :: r == RayLimit(dist, rays[i])
    decreases |rays|
  {
    if |rays| == 0 then dist
    else
      var prev := MinFold(dist, rays[..|rays| - 1]);
      assert forall i | 0 <= i < |rays| - 1 :: rays[..|rays| - 1][i] == rays[i];
      Min(prev, RayLimit(dist, rays[|rays| - 1]))
  }

  /** Folding one more ray takes the smaller of the fold so far and that
      ray's limit. */
  lemma MinFoldStep(dist: real, rs: seq<Ray>, i: nat)
    requires i < |rs|
    ensures MinFold(dist, rs[..i + 1]) == Min(MinFold(dist, rs[..i]), RayLimit(dist, rs[i]))
  {
    assert rs[..i + 1][..i] == rs[..i];
    assert rs[..i + 1][i] == rs[i];
  }

  /** The loop of `view` over the rays: start from the desired distance and
      keep the smallest limit seen. */
  method FoldRays(dist: real, rs: seq<Ray>) returns (m: real)
    ensures m == MinFold(dist, rs)
    ensures m <= dist && Min(dist, MinDist) <= m
    ensures forall i | 0 <= i < |rs| :: m <= RayLimit(dist, rs[i])
  {
    m := dist;
    var i := 0;
    while i < |rs|
      invariant 0 <= i <= |rs|
      invariant m == MinFold(dist, rs[..i])
    {
      var md := RayLimit(dist, rs[i]);
      MinFoldStep(dist, rs, i);
      if md < m {
        m := md;
      }
      i := i + 1;
    }
    assert rs[..i] == rs;
  }

  /** The final view distance: without a world it is the desired distance;
      with one it is the smallest of the desired distance and every ray's
      limit, hence never more than desired and never below min(desired, 25). */
  method ViewDistance(c: Cam, d: CamDef, rays: Option<seq<Ray>>) returns (distMd: real)
    ensures rays.None? ==> distMd == DesiredDistance(c, d)
    ensures distMd <= DesiredDistance(c, d)
    ensures Min(DesiredDistance(c, d), MinDist) <= distMd
    ensures rays.Some? ==> distMd == MinFold(DesiredDistance(c, d), rays.value)
    ensures rays.Some? ==> forall i | 0 <= i < |rays.value| :: distMd <= RayLimit(DesiredDistance(c, d), rays.value[i])
  {
    var dist := DesiredDistance(c, d);
    if rays.None? {
      distMd := dist;
    } else {
      distMd := FoldRays(dist, rays.value);
    }
  }
}

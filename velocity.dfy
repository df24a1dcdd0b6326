/** Normalisation of the summed flow (`_get_velocity`), the optional conversion
    to metres per second (`_velocity_meters_per_second`) and the choice of the
    timestep in `processFrame`. */
module Velocity {
  import opened FlowTypes
  import opened Sampling
  import opened Arith

  /** `(flow.height * flow.width) / move_step**2` with Python 2 integer `/`
      (floor division; with a positive divisor Dafny's `/` agrees). */
  function SampleCount(h: int, w: int, step: int): (count: int)
    requires step >= 1
    ensures count * (step * step) <= h * w < (count + 1) * (step * step)
  {
    MulMonotone(1, step, step);
    DivFloor(h * w, step * step);
    (h * w) / (step * step)
  }

  /** The floor quotient brackets the dividend between two multiples. */
  lemma DivFloor(n: int, d: int)
    requires d >= 1
    ensures (n / d) * d <= n < (n / d + 1) * d
  {
    assert (n / d + 1) * d == (n / d) * d + d;
  }

  /** When both dimensions are multiples of the step, the count is exactly the
      number of points the sampling loop visits. */
  lemma CountMatchesVisited(h: int, w: int, step: int)
    requires step >= 1 && h >= 0 && w >= 0 && h % step == 0 && w % step == 0
    ensures SampleCount(h, w, step) == |Grid(h, w, step)|
  {
    var a, b := h / step, w / step;
    assert h == a * step by { DivModUnique(h, step, h / step, 0); }
    assert w == b * step by { DivModUnique(w, step, w / step, 0); }
    CeilDivExact(a, step);
    CeilDivExact(b, step);
    GridSize(h, w, step);
    ProductOfMultiples(h, w, step, a, b);
    DivModUnique(h * w, step * step, a * b, 0);
  }

  lemma ProductOfMultiples(h: int, w: int, s: int, a: int, b: int)
    requires h == a * s && w == b * s
    ensures h * w == (a * b) * (s * s) + 0
  {
    Rearrange(s, a, b);
    assert h * w == (s * a) * (s * b);
  }

  /** The count never exceeds the number of visited points. */
  lemma CountAtMostVisited(h: int, w: int, step: int)
    requires step >= 1 && h >= 0 && w >= 0
    ensures SampleCount(h, w, step) <= |Grid(h, w, step)|
  {
    GridSize(h, w, step);
    var ch, cw := CeilDiv(h, step), CeilDiv(w, step);
    CeilDivCovers(h, step);
    CeilDivCovers(w, step);
    ProductBound(h, w, step * ch, step * cw);
    Rearrange(step, ch, cw);
    DivAtMost(h * w, step * step, ch * cw);
  }

  lemma ProductBound(h: int, w: int, a: int, b: int)
    requires 0 <= h <= a && 0 <= w <= b
    ensures h * w <= a * b
  {
    MulMonotone(h, a, w);
    MulMonotone(w, b, a);
  }

  lemma Rearrange(s: int, a: int, b: int)
    ensures (s * a) * (s * b) == (a * b) * (s * s)
  {
  }

  /** A 3 x 3 field sampled with step 2 visits four points but is divided by 2. */
  lemma CountBelowVisited()
    ensures SampleCount(3, 3, 2) == 2 && |Grid(3, 3, 2)| == 4
  {
    GridSize(3, 3, 2);
    assert CeilDiv(3, 2) == 2;
  }

  /** A field smaller than one step squared has a count of zero. */
  lemma CountZeroBelowOneCell(h: int, w: int, step: int)
    requires step >= 1 && 0 <= h * w < step * step
    ensures SampleCount(h, w, step) == 0
  {
    DivModUnique(h * w, step * step, 0, h * w);
  }

  /** Pixels per metre at `distance` metres for an axis of `dim` pixels:
      `(dim / 2) / tan(angle / 2) / distance`, with Python 2 integer `dim / 2`. */
  function PixelsPerMetre(dim: int, distance: real, tanHalfAngle: real): real
    requires tanHalfAngle != 0.0 && distance != 0.0
  {
    ((dim / 2) as real / tanHalfAngle) / distance
  }

  /** `_velocity_meters_per_second`: a pixel velocity divided by the pixels per
      metre; any zero divisor raises ZeroDivisionError. */
  function MetresPerSecond(v: real, dim: int, distance: real, tanHalfAngle: real): (r: Result<real>)
    ensures r.Ok? <==> tanHalfAngle != 0.0 && distance != 0.0 && dim / 2 != 0
    ensures r.Ok? ==> r.value * PixelsPerMetre(dim, distance, tanHalfAngle) == v
    ensures r.Err? ==> r.error == ZeroDivision
  {
    if tanHalfAngle == 0.0 then Err(ZeroDivision)
    else
      var distancePixels := (dim / 2) as real / tanHalfAngle;
      if distance == 0.0 then Err(ZeroDivision)
      else
        var pixelsPerMetre := distancePixels / distance;
        if pixelsPerMetre == 0.0 then Err(ZeroDivision)
        else Ok(v / pixelsPerMetre)
  }

  /** `self.perspective_angle and distance_meters`: the metres conversion is
      applied only when both are non-zero. */
  predicate Converts(cfg: FlowConfig, distance: Option<real>): (c: bool)
    ensures c ==> cfg.perspectiveAngle != 0.0 && distance.Some? && distance.value != 0.0
    ensures !c ==> cfg.perspectiveAngle == 0.0 || distance == None || distance.value == 0.0
  {
    cfg.perspectiveAngle != 0.0 && Truthy(distance)
  }

  /** `_get_velocity` for one axis of `dim` pixels. */
  function AxisVelocity(cfg: FlowConfig, sum: real, dim: int, distance: Option<real>, dt: real): (r: Result<real>)
    requires cfg.moveStep >= 1
    ensures var count := SampleCount(cfg.height, cfg.width, cfg.moveStep);
      r.Err? <==>
        (count == 0 || dt == 0.0 ||
         (Converts(cfg, distance) && (cfg.tanHalfAngle == 0.0 || dim / 2 == 0)))
    ensures r.Err? ==> r.error == ZeroDivision
    ensures var count := SampleCount(cfg.height, cfg.width, cfg.moveStep);
      r.Ok? && !Converts(cfg, distance) ==> r.value * count as real * dt == sum
    ensures var count := SampleCount(cfg.height, cfg.width, cfg.moveStep);
      r.Ok? && Converts(cfg, distance) ==>
        cfg.tanHalfAngle != 0.0 &&
        r.value * PixelsPerMetre(dim, distance.value, cfg.tanHalfAngle) * count as real * dt == sum
  {
    var count := SampleCount(cfg.height, cfg.width, cfg.moveStep);
    if count == 0 || dt == 0.0 then Err(ZeroDivision)
    else
      var average := sum / count as real / dt;
      if Converts(cfg, distance) then MetresPerSecond(average, dim, distance.value, cfg.tanHalfAngle)
      else Ok(average)
  }

  /** The value `processFrame` returns after its state update: x first (over
      the width), then y (over the height); the first exception wins. */
  function FrameVelocity(cfg: FlowConfig, xsum: real, ysum: real, distance: Option<real>, dt: real): (out: Outcome)
    requires cfg.moveStep >= 1
    ensures var count := SampleCount(cfg.height, cfg.width, cfg.moveStep);
      out.Velocity? <==>
        (count != 0 && dt != 0.0 &&
         (Converts(cfg, distance) ==> cfg.tanHalfAngle != 0.0 && cfg.width / 2 != 0 && cfg.height / 2 != 0))
    ensures !out.Velocity? ==> out == Raised(ZeroDivision)
    ensures var count := SampleCount(cfg.height, cfg.width, cfg.moveStep);
      out.Velocity? && !Converts(cfg, distance) ==>
        out.vx * count as real * dt == xsum && out.vy * count as real * dt == ysum
    ensures var count := SampleCount(cfg.height, cfg.width, cfg.moveStep);
      out.Velocity? && Converts(cfg, distance) ==>
        cfg.tanHalfAngle != 0.0 &&
        out.vx * PixelsPerMetre(cfg.width, distance.value, cfg.tanHalfAngle) * count as real * dt == xsum &&
        out.vy * PixelsPerMetre(cfg.height, distance.value, cfg.tanHalfAngle) * count as real * dt == ysum
  {
    match AxisVelocity(cfg, xsum, cfg.width, distance, dt)
    case Err(e) => Raised(e)
    case Ok(vx) =>
      match AxisVelocity(cfg, ysum, cfg.height, distance, dt)
      case Err(e) => Raised(e)
      case Ok(vy) => Velocity(vx, vy)
  }

  /** A field holding the same vector c everywhere, with both dimensions
      multiples of the step, averages to c / timestep in pixel units. */
  lemma ConstantFieldVelocity(cfg: FlowConfig, field: array2<Vec>, c: Vec, distance: Option<real>, dt: real)
    requires cfg.moveStep >= 1
    requires field.Length0 == cfg.height && field.Length1 == cfg.width
    requires cfg.height >= 1 && cfg.width >= 1
    requires cfg.height % cfg.moveStep == 0 && cfg.width % cfg.moveStep == 0
    requires forall i, j :: 0 <= i < field.Length0 && 0 <= j < field.Length1 ==> field[i, j] == c
    requires dt != 0.0 && !Converts(cfg, distance)
    ensures var pts := Grid(cfg.height, cfg.width, cfg.moveStep);
      FrameVelocity(cfg, SumDx(field, pts), SumDy(field, pts), distance, dt) == Velocity(c.dx / dt, c.dy / dt)
  {
    var pts := Grid(cfg.height, cfg.width, cfg.moveStep);
    assert SumDx(field, pts) == |pts| as real * c.dx && SumDy(field, pts) == |pts| as real * c.dy by {
      SumOfConstantField(field, pts, c);
    }
    GridCountPositive(cfg.height, cfg.width, cfg.moveStep);
    ConstantSums(cfg, SumDx(field, pts), SumDy(field, pts), distance, dt, |pts|, c);
  }

  /** Sums that are n times a constant vector, divided by a count of n. */
  lemma ConstantSums(cfg: FlowConfig, xsum: real, ysum: real, distance: Option<real>, dt: real, n: nat, c: Vec)
    requires cfg.moveStep >= 1 && SampleCount(cfg.height, cfg.width, cfg.moveStep) == n > 0
    requires dt != 0.0 && !Converts(cfg, distance)
    requires xsum == n as real * c.dx && ysum == n as real * c.dy
    ensures FrameVelocity(cfg, xsum, ysum, distance, dt) == Velocity(c.dx / dt, c.dy / dt)
  {
    AxisOfConstant(cfg, xsum, cfg.width, distance, dt, n, c.dx);
    AxisOfConstant(cfg, ysum, cfg.height, distance, dt, n, c.dy);
    BothAxes(cfg, xsum, ysum, distance, dt);
  }

  /** A non-empty field whose sides are multiples of the step is divided by
      the number of visited points, which is positive. */
  lemma GridCountPositive(h: int, w: int, step: int)
    requires step >= 1 && h >= 1 && w >= 1 && h % step == 0 && w % step == 0
    ensures SampleCount(h, w, step) == |Grid(h, w, step)| > 0
  {
    CountMatchesVisited(h, w, step);
    GridMembers(h, w, step, 0, 0);
    assert (0, 0) in Grid(h, w, step);
  }

  lemma BothAxes(cfg: FlowConfig, xsum: real, ysum: real, distance: Option<real>, dt: real)
    requires cfg.moveStep >= 1
    requires AxisVelocity(cfg, xsum, cfg.width, distance, dt).Ok?
    requires AxisVelocity(cfg, ysum, cfg.height, distance, dt).Ok?
    ensures FrameVelocity(cfg, xsum, ysum, distance, dt)
         == Velocity(AxisVelocity(cfg, xsum, cfg.width, distance, dt).value,
                     AxisVelocity(cfg, ysum, cfg.height, distance, dt).value)
  {
  }

  lemma AxisOfConstant(cfg: FlowConfig, sum: real, dim: int, distance: Option<real>, dt: real, n: nat, c: real)
    requires cfg.moveStep >= 1 && SampleCount(cfg.height, cfg.width, cfg.moveStep) == n > 0
    requires dt != 0.0 && !Converts(cfg, distance) && sum == n as real * c
    ensures AxisVelocity(cfg, sum, dim, distance, dt) == Ok(c / dt)
  {
    var m := n as real;
    assert SampleCount(cfg.height, cfg.width, cfg.moveStep) as real == m;
    assert sum / m == c;
  }

  /** When the field has fewer pixels than one step squared, the count is zero
      and the call raises ZeroDivisionError whatever the sums. */
  lemma SmallFieldRaises(cfg: FlowConfig, xsum: real, ysum: real, distance: Option<real>, dt: real)
    requires cfg.moveStep >= 1 && cfg.height >= 0 && cfg.width >= 0
    requires cfg.height * cfg.width < cfg.moveStep * cfg.moveStep
    ensures FrameVelocity(cfg, xsum, ysum, distance, dt) == Raised(ZeroDivision)
  {
    CountZeroBelowOneCell(cfg.height, cfg.width, cfg.moveStep);
  }

  /** The timestep `processFrame` divides by: the caller's if truthy, else the
      time since the previous call if a truthy previous time is stored, else 1. */
  function EffectiveTimestep(timestep: Option<real>, prevTime: Option<real>, now: real): (dt: real)
    ensures dt == 0.0 <==> !Truthy(timestep) && Truthy(prevTime) && now == prevTime.value
  {
    if Truthy(timestep) then timestep.value
    else if Truthy(prevTime) then now - prevTime.value
    else 1.0
  }
}

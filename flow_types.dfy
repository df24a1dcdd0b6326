/** Values shared by the optical-flow model: optional values, the two Python
    exceptions the core can raise, flow vectors and the outcome of one frame. */
module FlowTypes {

  /** Python's `None` or a value. */
  datatype Option<T> = None | Some(value: T)

  /** The exceptions `OpticalFlowCalculator` raises itself (not those of OpenCV). */
  datatype Error =
    | ZeroDivision       // float division by zero in `_get_velocity` / `_velocity_meters_per_second`
    | SliceSizeMismatch  // ValueError: extended-slice assignment of the wrong length in `processBytes`

  datatype Result<T> = Ok(value: T) | Err(error: Error)

  /** One cell of the dense flow field: the displacement (fx, fy) in pixels. */
  datatype Vec = Vec(dx: real, dy: real)

  /** What one call of `processFrame` / `processBytes` ends with: `None` after the
      display cancel key, the (x, y) velocity pair, or an exception. */
  datatype Outcome = Cancelled | Velocity(vx: real, vy: real) | Raised(error: Error)

  /** The fixed parameters `_get_velocity` reads from the calculator: the flow
      image's width and height (the scaled frame size), `move_step`,
      `perspective_angle`, and the value of tan(perspective_angle / 2). */
  datatype FlowConfig = FlowConfig(
    width: int,
    height: int,
    moveStep: int,
    perspectiveAngle: real,
    tanHalfAngle: real)

  /** Python truthiness of an optional number: `None` and zero are false. */
  predicate Truthy(o: Option<real>) {
    o.Some? && o.value != 0.0
  }
}

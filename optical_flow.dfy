/** `OpticalFlowCalculator`: per-session state (the byte staging buffer, the
    two grayscale buffers whose roles swap on every frame, and the time of the
    previous frame) and the two entry points that process one frame.

    What OpenCV does is supplied by the caller: `toGray` stands for
    `cv.Resize` followed by `cv.CvtColor` into the calculator's current
    grayscale buffer, and `field` is what `cv.CalcOpticalFlowFarneback` wrote
    into the flow image for the previous and the current grayscale images.
    `now` is the value of `time.time()` and `key` that of `cv.WaitKey(1)`. */
module OpticalFlow {
  import opened FlowTypes
  import opened ChannelSwap
  import opened Sampling
  import opened Velocity
  import opened Arith

  class OpticalFlowCalculator {
    const moveStep: int
    const perspectiveAngle: real
    /** tan(perspective_angle / 2), the one trigonometric value the conversion uses. */
    const tanHalfAngle: real
    /** A display window was named at construction (`window_name` is truthy). */
    const windowed: bool
    const nativeWidth: int
    const nativeHeight: int
    /** The scaled-down frame size, which is also the flow image's size. */
    const frameWidth: int
    const frameHeight: int
    /** Staging buffer for `processBytes`: native width * height * 3 bytes when
        created; an input shorter than one pixel replaces it by a shorter one. */
    var bgrbytes: array<bv8>
    var gray: array<bv8>
    var prevGray: array<bv8>
    var prevTime: Option<real>

    ghost predicate Valid()
      reads this
    {
      moveStep >= 1 &&
      1 <= frameWidth <= nativeWidth && 1 <= frameHeight <= nativeHeight &&
      bgrbytes.Length <= 3 * (nativeWidth * nativeHeight) &&
      gray.Length == frameWidth * frameHeight &&
      prevGray.Length == frameWidth * frameHeight &&
      gray != prevGray && bgrbytes != gray && bgrbytes != prevGray
    }

    /** The fixed parameters `_get_velocity` reads. */
    function Config(): FlowConfig {
      FlowConfig(frameWidth, frameHeight, moveStep, perspectiveAngle, tanHalfAngle)
    }

    /** The display returned ESC (`cv.WaitKey(1) & 0xFF == 27`); only looked at
        when a window is attached. Euclidean `%` by 256 equals Python's `& 0xFF`,
        negative keys included. */
    predicate Cancels(key: int): (c: bool)
      ensures !windowed ==> !c
      ensures windowed ==> (c <==> (key - 27) % 256 == 0)
    {
      windowed && key % 256 == 27
    }

    constructor (frameWidth: int, frameHeight: int, scaledown: int, perspectiveAngle: real,
                 tanHalfAngle: real, moveStep: int, windowed: bool)
      requires 1 <= scaledown <= frameWidth && scaledown <= frameHeight && moveStep >= 1
      ensures Valid()
      ensures fresh(bgrbytes) && fresh(gray) && fresh(prevGray)
      ensures this.nativeWidth == frameWidth && this.nativeHeight == frameHeight
      ensures this.frameWidth == frameWidth / scaledown && this.frameHeight == frameHeight / scaledown
      ensures this.moveStep == moveStep && this.perspectiveAngle == perspectiveAngle
      ensures this.tanHalfAngle == tanHalfAngle && this.windowed == windowed
      ensures bgrbytes.Length == 3 * (nativeWidth * nativeHeight)
      ensures forall i :: 0 <= i < bgrbytes.Length ==> bgrbytes[i] == 0
      ensures prevTime == None
    {
      this.moveStep := moveStep;
      this.perspectiveAngle := perspectiveAngle;
      this.tanHalfAngle := tanHalfAngle;
      this.windowed := windowed;
      nativeWidth, nativeHeight := frameWidth, frameHeight;
      ScaledSize(frameWidth, scaledown);
      ScaledSize(frameHeight, scaledown);
      var w, h := frameWidth / scaledown, frameHeight / scaledown;
      this.frameWidth, this.frameHeight := w, h;
      var size := 3 * (frameWidth * frameHeight);
      bgrbytes := new bv8[size](_ => 0);
      gray := new bv8[w * h];
      prevGray := new bv8[w * h];
      prevTime := None;
    }

    /** `processFrame`. The grayscale image is written into the current buffer
        and the flow field is summed first; then a cancel from the display
        returns before any other state changes; otherwise the two grayscale
        buffers swap roles, the previous time becomes `now`, and the summed flow
        is normalised with the effective timestep. */
    method ProcessFrame(frame: Frame, toGray: Frame -> seq<bv8>, field: array2<Vec>,
                        distance: Option<real>, timestep: Option<real>, now: real, key: int)
      returns (out: Outcome)
      requires Valid()
      requires |toGray(frame)| == frameWidth * frameHeight
      requires field.Length0 == frameHeight && field.Length1 == frameWidth
      modifies this`gray, this`prevGray, this`prevTime, gray
      ensures Valid()
      ensures old(gray)[..] == toGray(frame)
      ensures Cancels(key) ==>
        out == Cancelled &&
        gray == old(gray) && prevGray == old(prevGray) && prevTime == old(prevTime) &&
        prevGray[..] == old(prevGray[..])
      ensures !Cancels(key) ==>
        prevGray == old(gray) && gray == old(prevGray) &&
        prevGray[..] == toGray(frame) && gray[..] == old(prevGray[..]) &&
        prevTime == Some(now) &&
        out == FrameVelocity(Config(),
                             SumDx(field, Grid(frameHeight, frameWidth, moveStep)),
                             SumDy(field, Grid(frameHeight, frameWidth, moveStep)),
                             distance, EffectiveTimestep(timestep, old(prevTime), now))
    {
      var g := toGray(frame);
      forall i | 0 <= i < gray.Length {
        gray[i] := g[i];
      }
      assert gray[..] == g;
      var xsum, ysum := SumFlow(field, moveStep);
      if Cancels(key) {
        return Cancelled;
      }
      prevGray, gray := gray, prevGray;
      var dt := EffectiveTimestep(timestep, prevTime, now);
      prevTime := Some(now);
      out := FrameVelocity(Config(), xsum, ysum, distance, dt);
    }

    /** `processBytes`: stages the caller's R-G-B bytes as B-G-R in the staging
        buffer, wraps that buffer as the native image and processes it as a
        frame. A slice assignment that raises ValueError stops the call with
        the buffer possibly half rewritten and nothing else changed; an input
        shorter than one pixel leaves a shorter buffer behind. */
    method ProcessBytes(rgb: seq<bv8>, toGray: Frame -> seq<bv8>, field: array2<Vec>,
                        distance: Option<real>, timestep: Option<real>, now: real, key: int)
      returns (out: Outcome)
      requires Valid()
      requires forall f :: |toGray(f)| == frameWidth * frameHeight
      requires field.Length0 == frameHeight && field.Length1 == frameWidth
      modifies this`bgrbytes, bgrbytes, this`gray, this`prevGray, this`prevTime, gray
      ensures Valid()
      ensures bgrbytes == old(bgrbytes) || fresh(bgrbytes)
      ensures bgrbytes[..] == StageChannels(old(bgrbytes[..]), rgb).1
      ensures |rgb| == old(bgrbytes.Length) && |rgb| % 3 == 0 ==> bgrbytes[..] == SwapPixels(rgb)
      ensures !StageChannels(old(bgrbytes[..]), rgb).0 ==>
        out == Raised(SliceSizeMismatch) &&
        gray == old(gray) && prevGray == old(prevGray) && prevTime == old(prevTime) &&
        gray[..] == old(gray[..]) && prevGray[..] == old(prevGray[..])
      ensures StageChannels(old(bgrbytes[..]), rgb).0 ==>
        var image := StagedImage(bgrbytes[..], nativeWidth, nativeHeight);
        old(gray)[..] == toGray(image) &&
        (Cancels(key) ==>
          out == Cancelled &&
          gray == old(gray) && prevGray == old(prevGray) && prevTime == old(prevTime) &&
          prevGray[..] == old(prevGray[..])) &&
        (!Cancels(key) ==>
          prevGray == old(gray) && gray == old(prevGray) &&
          prevGray[..] == toGray(image) && gray[..] == old(prevGray[..]) &&
          prevTime == Some(now) &&
          out == FrameVelocity(Config(),
                               SumDx(field, Grid(frameHeight, frameWidth, moveStep)),
                               SumDy(field, Grid(frameHeight, frameWidth, moveStep)),
                               distance, EffectiveTimestep(timestep, old(prevTime), now)))
    {
      if |rgb| == bgrbytes.Length && |rgb| % 3 == 0 {
        StageChannelsSwaps(bgrbytes[..], rgb);
      }
      var ok, staged := StageInPlace(bgrbytes, rgb);
      bgrbytes := staged;
      if !ok {
        return Raised(SliceSizeMismatch);
      }
      var image := StagedImage(bgrbytes[..], nativeWidth, nativeHeight);
      out := ProcessFrame(image, toGray, field, distance, timestep, now, key);
    }
  }

  /** Two frames processed one after the other, neither cancelled. The second
      frame divides by its own truthy timestep if given; otherwise by the time
      since the first frame, or by 1 if that first clock reading was 0. The
      two buffer swaps give each grayscale buffer its original role back, the
      previous one now holding the second frame. */
  method ConsecutiveFrames(c: OpticalFlowCalculator, f1: Frame, f2: Frame, toGray: Frame -> seq<bv8>,
                           field1: array2<Vec>, field2: array2<Vec>, distance: Option<real>,
                           timestep1: Option<real>, timestep2: Option<real>, now1: real, now2: real, key: int)
    returns (out1: Outcome, out2: Outcome)
    requires c.Valid() && !c.Cancels(key)
    requires |toGray(f1)| == c.frameWidth * c.frameHeight && |toGray(f2)| == c.frameWidth * c.frameHeight
    requires field1.Length0 == c.frameHeight && field1.Length1 == c.frameWidth
    requires field2.Length0 == c.frameHeight && field2.Length1 == c.frameWidth
    modifies c, c.gray, c.prevGray
    ensures c.Valid()
    ensures c.gray == old(c.gray) && c.prevGray == old(c.prevGray)
    ensures c.gray[..] == toGray(f1) && c.prevGray[..] == toGray(f2)
    ensures c.prevTime == Some(now2)
    ensures var pts := Grid(c.frameHeight, c.frameWidth, c.moveStep);
      var dt := if Truthy(timestep2) then timestep2.value else if now1 != 0.0 then now2 - now1 else 1.0;
      out2 == FrameVelocity(c.Config(), SumDx(field2, pts), SumDy(field2, pts), distance, dt)
  {
    out1 := c.ProcessFrame(f1, toGray, field1, distance, timestep1, now1, key);
    out2 := c.ProcessFrame(f2, toGray, field2, distance, timestep2, now2, key);
  }

  /** The scaled size `int(n / scaledown)` is at least 1 and at most `n`. */
  lemma ScaledSize(n: int, scaledown: int)
    requires 1 <= scaledown <= n
    ensures 1 <= n / scaledown <= n
  {
    DivAtMost(n, scaledown, n);
    if n / scaledown < 1 {
      DivModUnique(n, scaledown, 0, n);
    }
  }
}

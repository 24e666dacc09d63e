/**
 * Landmark geometry and the gesture classifier (gesture_controller.py:66-221).
 *
 * A hand is the 21 landmarks the hand tracker reports, in its fixed
 * anatomical order. Coordinates are normalised to the frame, with the
 * vertical axis growing downwards, so "higher on screen" means "smaller y".
 */
module HandGeometry {
  import opened Wrappers
  import opened Config

  datatype Point = Point(x: real, y: real, z: real)

  const LANDMARK_COUNT := 21

  // Landmark indices (gesture_controller.py:44-64); only the ones the core reads.
  const WRIST := 0
  const THUMB_TIP := 4
  const INDEX_MCP := 5
  const INDEX_PIP := 6
  const INDEX_TIP := 8
  const MIDDLE_PIP := 10
  const MIDDLE_TIP := 12
  const RING_PIP := 14
  const RING_TIP := 16
  const PINKY_PIP := 18
  const PINKY_TIP := 20

  // Thumb thresholds (gesture_controller.py:109-110, 116)
  const THUMB_UP_THRESHOLD: real := 0.15
  const THUMB_DOWN_THRESHOLD: real := -0.10
  const THUMB_SIDE_THRESHOLD: real := 0.12

  // Fist thresholds (gesture_controller.py:180, 188)
  const FIST_TUCK_DISTANCE: real := 0.15
  const FIST_VERTICAL_LIMIT: real := 0.12

  /** A complete landmark set as the tracker delivers it. */
  predicate IsHand(lm: seq<Point>)
  {
    |lm| == LANDMARK_COUNT
  }

  function Abs(r: real): real
  {
    if r < 0.0 then -r else r
  }

  /** Extension flags of the four fingers; the thumb is handled by ThumbDirectionOf. */
  datatype Fingers = Fingers(index: bool, middle: bool, ring: bool, pinky: bool)

  /** A finger is extended when its tip is strictly higher on screen than its PIP joint. */
  function FingerState(lm: seq<Point>): Fingers
    requires IsHand(lm)
  {
    Fingers(
      lm[INDEX_TIP].y < lm[INDEX_PIP].y,
      lm[MIDDLE_TIP].y < lm[MIDDLE_PIP].y,
      lm[RING_TIP].y < lm[RING_PIP].y,
      lm[PINKY_TIP].y < lm[PINKY_PIP].y)
  }

  predicate AllCurled(f: Fingers)
  {
    !f.index && !f.middle && !f.ring && !f.pinky
  }

  predicate AllExtended(f: Fingers)
  {
    f.index && f.middle && f.ring && f.pinky
  }

  datatype ThumbDirection = Up | Down | Side | Curled

  /** How far the thumb tip is above the wrist (positive: above). */
  function ThumbRise(lm: seq<Point>): real
    requires IsHand(lm)
  {
    lm[WRIST].y - lm[THUMB_TIP].y
  }

  /** How far the thumb tip is from the wrist horizontally. */
  function ThumbSpread(lm: seq<Point>): real
    requires IsHand(lm)
  {
    Abs(lm[THUMB_TIP].x - lm[WRIST].x)
  }

  function ThumbDirectionOf(lm: seq<Point>): ThumbDirection
    requires IsHand(lm)
  {
    if ThumbRise(lm) > THUMB_UP_THRESHOLD then Up
    else if ThumbRise(lm) < THUMB_DOWN_THRESHOLD then Down
    else if ThumbSpread(lm) > THUMB_SIDE_THRESHOLD then Side
    else Curled
  }

  predicate IsThumbUp(lm: seq<Point>, f: Fingers)
    requires IsHand(lm)
  {
    ThumbDirectionOf(lm) == Up && AllCurled(f)
  }

  predicate IsThumbDown(lm: seq<Point>, f: Fingers)
    requires IsHand(lm)
  {
    ThumbDirectionOf(lm) == Down && AllCurled(f)
  }

  predicate IsOpenPalm(lm: seq<Point>, f: Fingers)
    requires IsHand(lm)
  {
    AllExtended(f) && ThumbDirectionOf(lm) in {Up, Side}
  }

  /**
   * The thumb test of a fist: the tip lies near the palm centre (the midpoint
   * of index MCP and wrist) on both axes, or is not far above or below the wrist.
   */
  predicate ThumbTucked(lm: seq<Point>)
    requires IsHand(lm)
  {
    var palmX := (lm[INDEX_MCP].x + lm[WRIST].x) / 2.0;
    var palmY := (lm[INDEX_MCP].y + lm[WRIST].y) / 2.0;
    var nearPalm := Abs(lm[THUMB_TIP].x - palmX) < FIST_TUCK_DISTANCE
                    && Abs(lm[THUMB_TIP].y - palmY) < FIST_TUCK_DISTANCE;
    var notPointing := Abs(lm[WRIST].y - lm[THUMB_TIP].y) < FIST_VERTICAL_LIMIT;
    nearPalm || notPointing
  }

  predicate IsFist(lm: seq<Point>, f: Fingers)
    requires IsHand(lm)
  {
    AllCurled(f) && ThumbTucked(lm)
  }

  predicate IsPeaceSign(f: Fingers)
  {
    f.index && f.middle && !f.ring && !f.pinky
  }

  predicate IsPointingUp(f: Fingers)
  {
    f.index && !f.middle && !f.ring && !f.pinky
  }

  /** The classifier: the gesture predicates tried in priority order, the first match wins. */
  function Detect(lm: seq<Point>): Option<Gesture>
    requires IsHand(lm)
  {
    var f := FingerState(lm);
    if IsThumbUp(lm, f) then Some(ThumbsUp)
    else if IsThumbDown(lm, f) then Some(ThumbsDown)
    else if IsPointingUp(f) then Some(PointUp)
    else if IsPeaceSign(f) then Some(Peace)
    else if IsOpenPalm(lm, f) then Some(OpenPalm)
    else if IsFist(lm, f) then Some(Fist)
    else None
  }

  /**
   * The classification as a decision table over the finger pattern first and
   * the thumb second: an independent statement of what Detect computes.
   */
  function ClassifyFeatures(f: Fingers, thumb: ThumbDirection, tucked: bool): Option<Gesture>
  {
    if AllCurled(f) then
      match thumb
      case Up => Some(ThumbsUp)
      case Down => Some(ThumbsDown)
      case _ => if tucked then Some(Fist) else None
    else if f == Fingers(true, false, false, false) then Some(PointUp)
    else if f == Fingers(true, true, false, false) then Some(Peace)
    else if AllExtended(f) then
      if thumb == Up || thumb == Side then Some(OpenPalm) else None
    else None
  }

  /** The priority chain of Detect agrees with the decision table. */
  lemma DetectIsClassifyFeatures(lm: seq<Point>)
    requires IsHand(lm)
    ensures Detect(lm) == ClassifyFeatures(FingerState(lm), ThumbDirectionOf(lm), ThumbTucked(lm))
  {
  }

  /** Only the tips and PIP joints of the four fingers decide the finger flags; the thumb plays no part. */
  lemma FingerStateIgnoresThumb(lm: seq<Point>, lm': seq<Point>)
    requires IsHand(lm) && IsHand(lm')
    requires lm[INDEX_TIP].y == lm'[INDEX_TIP].y && lm[INDEX_PIP].y == lm'[INDEX_PIP].y
    requires lm[MIDDLE_TIP].y == lm'[MIDDLE_TIP].y && lm[MIDDLE_PIP].y == lm'[MIDDLE_PIP].y
    requires lm[RING_TIP].y == lm'[RING_TIP].y && lm[RING_PIP].y == lm'[RING_PIP].y
    requires lm[PINKY_TIP].y == lm'[PINKY_TIP].y && lm[PINKY_PIP].y == lm'[PINKY_PIP].y
    ensures FingerState(lm) == FingerState(lm')
  {
  }

  /**
   * With v the rise of the thumb tip above the wrist and h its horizontal
   * spread: up iff v > 0.15, down iff v < -0.10, side iff v lies in
   * [-0.10, 0.15] and h > 0.12, curled otherwise.
   */
  lemma ThumbDirectionCases(lm: seq<Point>)
    requires IsHand(lm)
    ensures ThumbDirectionOf(lm) == Up <==> ThumbRise(lm) > 0.15
    ensures ThumbDirectionOf(lm) == Down <==> ThumbRise(lm) < -0.10
    ensures ThumbDirectionOf(lm) == Side <==>
              -0.10 <= ThumbRise(lm) <= 0.15 && ThumbSpread(lm) > 0.12
    ensures ThumbDirectionOf(lm) == Curled <==>
              -0.10 <= ThumbRise(lm) <= 0.15 && ThumbSpread(lm) <= 0.12
  {
  }

  /** With every finger curled, a thumb pointing up or down is never read as a fist. */
  lemma ThumbBeatsFist(lm: seq<Point>)
    requires IsHand(lm) && AllCurled(FingerState(lm))
    ensures ThumbDirectionOf(lm) == Up ==> Detect(lm) == Some(ThumbsUp)
    ensures ThumbDirectionOf(lm) == Down ==> Detect(lm) == Some(ThumbsDown)
  {
  }

  /** A fist has every finger curled and a thumb that points neither up nor down. */
  lemma FistHasNeutralThumb(lm: seq<Point>)
    requires IsHand(lm) && Detect(lm) == Some(Fist)
    ensures AllCurled(FingerState(lm)) && ThumbTucked(lm)
    ensures ThumbDirectionOf(lm) == Side || ThumbDirectionOf(lm) == Curled
  {
  }

  /**
   * The finger pattern alone decides point_up and peace; an open hand is
   * open_palm exactly when the thumb is up or to the side; every other mixed
   * pattern is no gesture.
   */
  lemma FingerPatternDecides(lm: seq<Point>)
    requires IsHand(lm)
    ensures IsPointingUp(FingerState(lm)) ==> Detect(lm) == Some(PointUp)
    ensures IsPeaceSign(FingerState(lm)) ==> Detect(lm) == Some(Peace)
    ensures AllExtended(FingerState(lm)) ==>
              (Detect(lm) == Some(OpenPalm) <==> ThumbDirectionOf(lm) in {Up, Side})
    ensures AllExtended(FingerState(lm)) && Detect(lm) != Some(OpenPalm) ==> Detect(lm) == None
    ensures (!AllCurled(FingerState(lm)) && !AllExtended(FingerState(lm))
             && !IsPointingUp(FingerState(lm)) && !IsPeaceSign(FingerState(lm))) ==> Detect(lm) == None
  {
  }

  /** The thumb's direction only matters when the four fingers are all curled or all extended. */
  lemma ThumbIrrelevantForPointAndPeace(lm: seq<Point>, lm': seq<Point>)
    requires IsHand(lm) && IsHand(lm')
    requires FingerState(lm) == FingerState(lm')
    requires IsPointingUp(FingerState(lm)) || IsPeaceSign(FingerState(lm))
    ensures Detect(lm) == Detect(lm')
  {
  }

  /**
   * The priority order is needed: a hand exists that passes both the
   * thumbs-up test and the fist test, and Detect reads it as thumbs_up.
   */
  lemma ThumbsUpAndFistOverlap()
    ensures exists lm :: IsHand(lm) && IsThumbUp(lm, FingerState(lm)) && IsFist(lm, FingerState(lm))
                         && Detect(lm) == Some(ThumbsUp)
  {
    var lm := seq(LANDMARK_COUNT, i =>
      if i == WRIST then Point(0.5, 0.8, 0.0)
      else if i == THUMB_TIP then Point(0.5, 0.6, 0.0)
      else Point(0.5, 0.5, 0.0));
    assert ThumbRise(lm) == 0.2;
    assert IsThumbUp(lm, FingerState(lm)) && IsFist(lm, FingerState(lm));
  }
}

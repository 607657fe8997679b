/**
 * The activity heuristic of ActivityDetection.js: a total classifier from a
 * person's bounding box and the previous person's box to one of five labels,
 * using first-match-wins threshold rules on corner movement, vertical
 * position and box height.
 *
 * Movement is the Euclidean distance between top-left corners. The model
 * compares its square against the squared thresholds; `MovementAgrees`
 * shows that this decides every rule exactly as the distance itself would.
 */
module ActivityDetection {
  import opened Wrappers

  /** A bounding box `[x, y, width, height]` in frame pixels. */
  datatype Box = Box(x: real, y: real, w: real, h: real)

  /** The five labels the heuristic can return. */
  datatype Activity = Unknown | Walking | Sitting | CloseTalking | Standing

  /** The label text the source returns and the overlay prints. */
  function Name(a: Activity): (s: string)
    ensures |s| > 0
  {
    match a
    case Unknown => "unknown"
    case Walking => "walking"
    case Sitting => "sitting"
    case CloseTalking => "close & talking"
    case Standing => "standing"
  }

  /** Distinct labels have distinct texts, so the text identifies the label. */
  lemma NameInjective(a: Activity, b: Activity)
    ensures Name(a) == Name(b) ==> a == b
  {
  }

  /** Calibration constants, in pixels of a 640 x 480 frame. */
  const WalkingMovement: real := 20.0
  const StillMovement: real := 5.0
  const LowY: real := 280.0
  const CloseHeight: real := 300.0

  /**
   * `boxMovement` squared: the squared distance between the top-left
   * corners of the two boxes, 0 when there is no previous box. Only the
   * corners are read.
   */
  function MovementSq(cur: Box, prev: Option<Box>): (d: real)
    ensures d >= 0.0
    ensures prev.None? ==> d == 0.0
  {
    match prev
    case None => 0.0
    case Some(p) =>
      var dx, dy := cur.x - p.x, cur.y - p.y;
      assert dx * dx >= 0.0 && dy * dy >= 0.0;
      dx * dx + dy * dy
  }

  /** `m` is the distance whose square is `d`: the square root the source takes. */
  ghost predicate IsSqrt(m: real, d: real) {
    m >= 0.0 && m * m == d
  }

  /**
   * Comparing the squared movement against the squared thresholds agrees
   * with comparing the movement against the thresholds.
   */
  lemma MovementAgrees(m: real, d: real)
    requires IsSqrt(m, d)
    ensures m > WalkingMovement <==> d > WalkingMovement * WalkingMovement
    ensures m < StillMovement <==> d < StillMovement * StillMovement
  {
    if m > 20.0 {
      assert m * m > 20.0 * m;
    } else {
      assert m * m <= 20.0 * m;
    }
    if m < 5.0 {
      assert m * m <= 5.0 * m;
    } else {
      assert m * m >= 5.0 * m;
    }
  }

  /** Rule 1: the corner moved more than the walking threshold. */
  predicate Moving(b: Box, prev: Option<Box>)
    ensures Moving(b, prev) ==> prev.Some?
  {
    MovementSq(b, prev) > WalkingMovement * WalkingMovement
  }

  /** Rule 2: low in the frame and almost still. */
  predicate LowAndStill(b: Box, prev: Option<Box>)
    ensures LowAndStill(b, prev) ==> !Moving(b, prev)
    ensures prev.None? ==> (LowAndStill(b, prev) <==> b.y > LowY)
  {
    b.y > LowY && MovementSq(b, prev) < StillMovement * StillMovement
  }

  /** Rule 3: a tall box, i.e. close to the camera. */
  predicate Close(b: Box)
    ensures Close(b) ==> b.h > 0.0
  {
    b.h > CloseHeight
  }

  /** The activity estimate: the first rule that matches decides. */
  function EstimateActivity(bbox: Option<Box>, prev: Option<Box>): (a: Activity)
    ensures a == Unknown <==> bbox.None?
  {
    match bbox
    case None => Unknown
    case Some(b) =>
      if Moving(b, prev) then Walking
      else if LowAndStill(b, prev) then Sitting
      else if Close(b) then CloseTalking
      else Standing
  }

  /** A missing box is "unknown" whatever the previous observation. */
  lemma MissingBoxUnknown(prev: Option<Box>)
    ensures EstimateActivity(None, prev) == Unknown
  {
  }

  /** Without a previous box the movement is 0, so the result is never "walking". */
  lemma NoPreviousNeverWalking(b: Box)
    ensures EstimateActivity(Some(b), None) != Walking
    ensures EstimateActivity(Some(b), None) == (if b.y > LowY then Sitting else if Close(b) then CloseTalking else Standing)
  {
  }

  /**
   * The decision table: each label holds exactly when its rule matches and
   * no earlier rule does.
   */
  lemma Decision(b: Box, prev: Option<Box>)
    ensures EstimateActivity(Some(b), prev) == Walking <==> Moving(b, prev)
    ensures EstimateActivity(Some(b), prev) == Sitting <==> !Moving(b, prev) && LowAndStill(b, prev)
    ensures EstimateActivity(Some(b), prev) == CloseTalking <==>
      !Moving(b, prev) && !LowAndStill(b, prev) && Close(b)
    ensures EstimateActivity(Some(b), prev) == Standing <==>
      !Moving(b, prev) && !LowAndStill(b, prev) && !Close(b)
  {
  }

  /**
   * A low box that moved between the two thresholds is not "sitting": it
   * falls through to the height rule.
   */
  lemma LowButMovingFallsThrough(b: Box, prev: Option<Box>)
    requires b.y > LowY
    requires StillMovement * StillMovement <= MovementSq(b, prev) <= WalkingMovement * WalkingMovement
    ensures EstimateActivity(Some(b), prev) == (if Close(b) then CloseTalking else Standing)
  {
  }

  /**
   * The result depends only on the corner of both boxes and the current
   * height: the current width and the previous width and height are never read.
   */
  lemma OnlyCornersAndHeightMatter(b: Box, prev: Option<Box>, b': Box, prev': Option<Box>)
    requires b.x == b'.x && b.y == b'.y && b.h == b'.h
    requires prev.None? <==> prev'.None?
    requires prev.Some? ==> prev.value.x == prev'.value.x && prev.value.y == prev'.value.y
    ensures EstimateActivity(Some(b), prev) == EstimateActivity(Some(b'), prev')
  {
    match prev
    case None =>
    case Some(p) =>
      var p' := prev'.value;
      assert b.x - p.x == b'.x - p'.x && b.y - p.y == b'.y - p'.y;
      assert MovementSq(b, prev) == MovementSq(b', prev');
  }

  /** Movement is symmetric in the current and the previous corner. */
  lemma MovementSymmetric(a: Box, b: Box)
    ensures MovementSq(a, Some(b)) == MovementSq(b, Some(a))
  {
  }

  /** Worked examples of the decision table. */
  lemma Examples()
    ensures EstimateActivity(Some(Box(100.0, 300.0, 50.0, 60.0)), Some(Box(101.0, 301.0, 50.0, 60.0))) == Sitting
    ensures EstimateActivity(Some(Box(100.0, 50.0, 50.0, 320.0)), None) == CloseTalking
    ensures EstimateActivity(Some(Box(100.0, 50.0, 50.0, 100.0)), None) == Standing
    ensures EstimateActivity(Some(Box(0.0, 0.0, 10.0, 10.0)), Some(Box(30.0, 40.0, 10.0, 10.0))) == Walking
  {
  }
}

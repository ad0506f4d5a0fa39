/**
 * The blink detector of the face app (`processPrediction`). Each frame
 * it receives the faces the landmark model found. Frames with no face or
 * with several faces are rejected with a notification. For a single face
 * it measures, per eye, the gap between the middle keypoint of the lower
 * half and the middle keypoint of the upper half of the eye contour,
 * compares that gap with the mean of the eye's gap history, decides
 * whether the eyes are closed, reports a blink on the transition into
 * "closed", and pushes the gaps onto the histories.
 */
module BlinkDetector {
  import opened Wrappers
  import opened Geometry
  import opened KeypointUtils
  import opened EyeHistory

  datatype EyeState = Open | Closed

  /** A detected face's box in image coordinates. */
  datatype BoundingBox = BoundingBox(xMin: real, yMin: real, xMax: real, yMax: real, width: real, height: real)

  /** One face found in a frame: its box and its full keypoint array. */
  datatype Face = Face(box: BoundingBox, keypoints: seq<Point>)

  /** The payload of a blink notification. */
  datatype Data = Data(eyeState: EyeState, bbox: BoundingBox)

  /**
   * What one call reports: the multiple-faces notification, the no-face
   * notification, a blink, nothing (a single face and no blink), or a
   * fault: the frame raised an error before any state was written, which
   * the render loop swallows.
   */
  datatype Event = MultipleFaces | NoFace | Blink(data: Data) | Quiet | Fault

  /** The fixed collaborators: the model's contour index table and `Math.sqrt`. */
  datatype Env = Env(indices: IndexTable, sqrt: real -> real)

  /** A frame counts as closed when both eyes' gap dropped by more than this. */
  const Margin: real := 5.0

  datatype Eye = Left | Right

  /** The two eye gaps measured on one face. */
  datatype Gaps = Gaps(left: real, right: real)
  {
    function Of(eye: Eye): real
    {
      if eye == Left then left else right
    }
  }

  /** `contour.slice(0, floor(n / 2))`. */
  function LowerHalf<T>(contour: seq<T>): seq<T>
  {
    contour[..|contour| / 2]
  }

  /** `contour.slice(ceil(n / 2))`. */
  function UpperHalf<T>(contour: seq<T>): seq<T>
  {
    contour[(|contour| + 1) / 2..]
  }

  /**
   * Both halves have `floor(n / 2)` points. For an even contour they
   * cover it; for an odd one the midpoint belongs to neither half.
   */
  lemma {:induction false} HalvesSplit<T>(contour: seq<T>)
    ensures |LowerHalf(contour)| == |UpperHalf(contour)| == |contour| / 2
    ensures |contour| % 2 == 0 ==> LowerHalf(contour) + UpperHalf(contour) == contour
    ensures |contour| % 2 == 1 ==>
      LowerHalf(contour) + [contour[|contour| / 2]] + UpperHalf(contour) == contour
  {
    var n := |contour|;
    if n % 2 == 0 {
      assert (n + 1) / 2 == n / 2;
      assert contour[..n / 2] + contour[n / 2..] == contour;
    } else {
      assert (n + 1) / 2 == n / 2 + 1;
      assert contour[..n / 2] + [contour[n / 2]] + contour[n / 2 + 1..] == contour;
    }
  }

  /**
   * The lower-middle and upper-middle points of an eye contour: the
   * element at `floor(len / 2)` of each half. They exist exactly when the
   * contour has at least two points; otherwise a half is empty.
   */
  function EyeMarkers(contour: seq<Point>): (r: Option<(Point, Point)>)
    ensures r.Some? <==> |contour| >= 2
  {
    var lower, upper := LowerHalf(contour), UpperHalf(contour);
    if |lower| == 0 || |upper| == 0 then None
    else Some((lower[|lower| / 2], upper[|upper| / 2]))
  }

  /**
   * For a contour of `n >= 2` points the markers are the points at
   * `floor(n / 4)`, inside the lower half, and at
   * `ceil(n / 2) + floor(n / 4)`, inside the upper half.
   */
  lemma MarkerPositions(contour: seq<Point>)
    requires |contour| >= 2
    ensures var n := |contour|;
      n / 4 < n / 2 && (n + 1) / 2 + n / 4 < n &&
      EyeMarkers(contour) == Some((contour[n / 4], contour[(n + 1) / 2 + n / 4]))
  {
    var n := |contour|;
    assert (n / 2) / 2 == n / 4;
  }

  /** The gap of one eye: the distance between its two markers. */
  function EyeGap(sqrt: real -> real, contour: seq<Point>): (r: Option<real>)
    ensures r.Some? <==> |contour| >= 2
    ensures r.Some? && IsSquareRoot(sqrt) ==> 0.0 <= r.value
  {
    match EyeMarkers(contour)
    case None => None
    case Some((lower, upper)) => Some(Distance(sqrt, lower, upper))
  }

  /** The contour of `name` can be read from `face` and has two halves to measure. */
  predicate Measurable(env: Env, face: Face, name: ContourName)
  {
    IndicesInRange(env.indices(name), |face.keypoints|) && |env.indices(name)| >= 2
  }

  /**
   * Both eye gaps of a face. There are none when an eye's table entry
   * names a keypoint beyond the array (reading it raises an error) or an
   * eye contour has fewer than two points (its middle point is missing).
   */
  function FaceGaps(env: Env, face: Face): (r: Option<Gaps>)
    ensures r.Some? <==> Measurable(env, face, LeftEye) && Measurable(env, face, RightEye)
    ensures r.Some? && IsSquareRoot(env.sqrt) ==> 0.0 <= r.value.left && 0.0 <= r.value.right
  {
    if !IndicesInRange(env.indices(LeftEye), |face.keypoints|) then None
    else if !IndicesInRange(env.indices(RightEye), |face.keypoints|) then None
    else
      var leftEye := GetKeypointsByContour(env.indices, LeftEye, face.keypoints);
      var rightEye := GetKeypointsByContour(env.indices, RightEye, face.keypoints);
      match (EyeGap(env.sqrt, leftEye), EyeGap(env.sqrt, rightEye))
      case (Some(left), Some(right)) => Some(Gaps(left, right))
      case _ => None
  }

  /** `diffs.every((e) => e > 5)`. */
  predicate AllExceed(diffs: seq<real>): (b: bool)
    ensures b <==> forall i :: 0 <= i < |diffs| ==> diffs[i] > Margin
  {
    diffs == [] || (diffs[0] > Margin && AllExceed(diffs[1..]))
  }

  /** The state of one frame: closed exactly when both drops exceed the margin. */
  function FrameState(leftDiff: real, rightDiff: real): (st: EyeState)
    ensures st == Closed <==> leftDiff > Margin && rightDiff > Margin
  {
    var diffs := [leftDiff, rightDiff];
    assert diffs[0] == leftDiff && diffs[1] == rightDiff;
    if AllExceed(diffs) then Closed else Open
  }

  /** The detector's state: the two gap histories and the retained eye state. */
  datatype DetectorState = DetectorState(left: seq<real>, right: seq<real>, eyeState: EyeState)
  {
    function History(eye: Eye): seq<real>
    {
      if eye == Left then left else right
    }
  }

  predicate ValidState(s: DetectorState)
  {
    Bounded(s.left) && Bounded(s.right)
  }

  /** The state the detector starts in: both histories `[0]`, eyes open. */
  function Initial(): (s: DetectorState)
    ensures ValidState(s)
  {
    DetectorState([0.0], [0.0], Open)
  }

  /** The gaps of a frame the detector processes: one face whose gaps can be measured. */
  function Accepted(env: Env, faces: seq<Face>): (r: Option<Gaps>)
    ensures r.Some? ==> |faces| == 1
  {
    if |faces| == 1 then FaceGaps(env, faces[0]) else None
  }

  datatype Outcome = Outcome(next: DetectorState, event: Event)

  /** One call of the detector, on values. */
  function Step(env: Env, s: DetectorState, faces: seq<Face>): (o: Outcome)
    requires ValidState(s)
    ensures ValidState(o.next)
  {
    if |faces| > 1 then Outcome(s, MultipleFaces)
    else if |faces| == 0 then Outcome(s, NoFace)
    else match FaceGaps(env, faces[0])
      case None => Outcome(s, Fault)
      case Some(g) =>
        var current := FrameState(Mean(s.left) - g.left, Mean(s.right) - g.right);
        var event := if current == Closed && current != s.eyeState
                     then Blink(Data(current, faces[0].box)) else Quiet;
        Outcome(DetectorState(Push(s.left, g.left), Push(s.right, g.right), current), event)
  }

  /** With several faces only the multiple-faces notification is given and nothing changes. */
  lemma MultipleFacesChangeNothing(env: Env, s: DetectorState, faces: seq<Face>)
    requires ValidState(s) && |faces| > 1
    ensures Step(env, s, faces) == Outcome(s, MultipleFaces)
  {
  }

  /** With no face only the no-face notification is given and nothing changes. */
  lemma NoFaceChangesNothing(env: Env, s: DetectorState)
    requires ValidState(s)
    ensures Step(env, s, []) == Outcome(s, NoFace)
  {
  }

  /** A single face whose gaps cannot be measured changes nothing and reports no blink. */
  lemma FaultChangesNothing(env: Env, s: DetectorState, faces: seq<Face>)
    requires ValidState(s) && |faces| == 1 && FaceGaps(env, faces[0]).None?
    ensures Step(env, s, faces) == Outcome(s, Fault)
  {
  }

  /** A frame the detector does not process leaves its state as it was. */
  lemma IgnoredFrameKeepsState(env: Env, s: DetectorState, faces: seq<Face>)
    requires ValidState(s) && Accepted(env, faces).None?
    ensures Step(env, s, faces).next == s
    ensures !Step(env, s, faces).event.Blink? && Step(env, s, faces).event != Quiet
  {
  }

  /**
   * After a processed frame each history holds between one and ten
   * gaps: this frame's gap first, then the old history cut to nine.
   */
  lemma HistoryUpdate(env: Env, s: DetectorState, faces: seq<Face>, eye: Eye)
    requires ValidState(s) && Accepted(env, faces).Some?
    ensures var h := Step(env, s, faces).next.History(eye);
      1 <= |h| <= Capacity &&
      h[0] == Accepted(env, faces).value.Of(eye) &&
      h[1..] == Take(s.History(eye), Capacity - 1)
  {
  }

  /**
   * The new state of a processed frame is closed exactly when both gaps
   * fell more than the margin below the mean of the history as it was
   * before this frame; the retained state becomes the frame's state.
   */
  lemma ClosedRule(env: Env, s: DetectorState, faces: seq<Face>)
    requires ValidState(s) && Accepted(env, faces).Some?
    ensures var g := Accepted(env, faces).value;
      Step(env, s, faces).next.eyeState == Closed <==>
        Mean(s.left) - g.left > Margin && Mean(s.right) - g.right > Margin
  {
  }

  /**
   * A blink is reported exactly on a processed frame whose state is
   * closed while the retained state was not; it carries the face's box.
   */
  lemma BlinkIffEdge(env: Env, s: DetectorState, faces: seq<Face>)
    requires ValidState(s)
    ensures var o := Step(env, s, faces);
      o.event.Blink? <==>
        Accepted(env, faces).Some? && o.next.eyeState == Closed && s.eyeState != Closed
    ensures var o := Step(env, s, faces);
      o.event.Blink? ==> o.event.data == Data(Closed, faces[0].box)
  {
  }

  /** Once the retained state is closed, the next frame cannot report a blink. */
  lemma NoBlinkWhileClosed(env: Env, s: DetectorState, faces: seq<Face>)
    requires ValidState(s) && s.eyeState == Closed
    ensures !Step(env, s, faces).event.Blink?
  {
  }

  /**
   * A history whose entries are all at most the margin cannot make a
   * frame close: its mean is at most the margin and a gap is never
   * negative.
   */
  lemma {:induction false} LowHistoryStaysOpen(env: Env, s: DetectorState, faces: seq<Face>)
    requires ValidState(s) && IsSquareRoot(env.sqrt)
    requires forall i :: 0 <= i < |s.left| ==> 0.0 <= s.left[i] <= Margin
    ensures Step(env, s, faces).next.eyeState == s.eyeState || Step(env, s, faces).next.eyeState == Open
    ensures !Step(env, s, faces).event.Blink?
  {
    MeanBounds(s.left, 0.0, Margin);
  }

  /** The first frame after start-up never closes and never reports a blink. */
  lemma FirstFrameStaysOpen(env: Env, faces: seq<Face>)
    requires IsSquareRoot(env.sqrt)
    ensures Step(env, Initial(), faces).next.eyeState == Open
    ensures !Step(env, Initial(), faces).event.Blink?
  {
    LowHistoryStaysOpen(env, Initial(), faces);
  }

  /**
   * The detector object: it owns the two gap histories and the retained
   * eye state and updates them in place on every frame.
   */
  class Detector {
    const env: Env
    var left: seq<real>
    var right: seq<real>
    var eyeState: EyeState

    function State(): DetectorState
      reads this
    {
      DetectorState(left, right, eyeState)
    }

    ghost predicate Valid()
      reads this
    {
      ValidState(State())
    }

    constructor (env: Env)
      ensures Valid() && this.env == env && State() == Initial()
    {
      this.env := env;
      left := [0.0];
      right := [0.0];
      eyeState := Open;
    }

    /** `processPrediction(faces)`. */
    method ProcessPrediction(faces: seq<Face>) returns (event: Event)
      requires Valid()
      modifies this
      ensures Valid()
      ensures Outcome(State(), event) == Step(env, old(State()), faces)
      ensures |faces| > 1 ==> event == MultipleFaces && State() == old(State())
      ensures |faces| == 0 ==> event == NoFace && State() == old(State())
      ensures event.Blink? ==> old(eyeState) == Open && eyeState == Closed
    {
      if |faces| > 1 {
        return MultipleFaces;
      }
      if |faces| == 0 {
        return NoFace;
      }
      var face := faces[0];
      if !IndicesInRange(env.indices(LeftEye), |face.keypoints|) {
        return Fault;
      }
      var leftEye := GetKeypointsByContour(env.indices, LeftEye, face.keypoints);
      if !IndicesInRange(env.indices(RightEye), |face.keypoints|) {
        return Fault;
      }
      var rightEye := GetKeypointsByContour(env.indices, RightEye, face.keypoints);
      var leftMeasured := EyeGap(env.sqrt, leftEye);
      var rightMeasured := EyeGap(env.sqrt, rightEye);
      if leftMeasured.None? || rightMeasured.None? {
        // the middle point of an empty half is missing, and measuring it raises an error
        return Fault;
      }
      var leftGap, rightGap := leftMeasured.value, rightMeasured.value;
      assert FaceGaps(env, face) == Some(Gaps(leftGap, rightGap));

      var leftAvgGap := AverageGap(left);
      var rightAvgGap := AverageGap(right);
      var current := FrameState(leftAvgGap - leftGap, rightAvgGap - rightGap);

      if current == Closed && current != eyeState {
        event := Blink(Data(current, face.box));
      } else {
        event := Quiet;
      }
      left := Push(left, leftGap);
      right := Push(right, rightGap);
      eyeState := current;
    }
  }
}

/**
 * Contour lookup: the keypoints of one named facial contour, taken from a
 * frame's full keypoint array through a fixed index table.
 */
module KeypointUtils {
  import opened Wrappers

  /** The eight contour names the lookup accepts. */
  datatype ContourName =
    | Lips | LeftEye | LeftEyebrow | LeftIris
    | RightEye | RightEyebrow | RightIris | FaceOval

  /** The string spelling of each contour name. */
  function NameText(name: ContourName): string
  {
    match name
    case Lips => "lips"
    case LeftEye => "leftEye"
    case LeftEyebrow => "leftEyebrow"
    case LeftIris => "leftIris"
    case RightEye => "rightEye"
    case RightEyebrow => "rightEyebrow"
    case RightIris => "rightIris"
    case FaceOval => "faceOval"
  }

  /** Reads a contour name; only the eight spellings above are accepted. */
  function ParseContourName(s: string): (r: Option<ContourName>)
    ensures r.Some? ==> NameText(r.value) == s
  {
    if s == "lips" then Some(Lips)
    else if s == "leftEye" then Some(LeftEye)
    else if s == "leftEyebrow" then Some(LeftEyebrow)
    else if s == "leftIris" then Some(LeftIris)
    else if s == "rightEye" then Some(RightEye)
    else if s == "rightEyebrow" then Some(RightEyebrow)
    else if s == "rightIris" then Some(RightIris)
    else if s == "faceOval" then Some(FaceOval)
    else None
  }

  /** Every contour name is read back from its own spelling. */
  lemma ParseNameText(name: ContourName)
    ensures ParseContourName(NameText(name)) == Some(name)
  {
  }

  /**
   * The static index table of the landmark model: for each contour name,
   * the ordered positions of its keypoints in the full keypoint array.
   * It is computed once and never changes.
   */
  type IndexTable = ContourName -> seq<nat>

  /** Every position in `indices` is a valid index of an array of length `n`. */
  predicate IndicesInRange(indices: seq<nat>, n: nat)
  {
    forall i :: 0 <= i < |indices| ==> indices[i] < n
  }

  /** `indices.map(idx => keypoints[idx])`. */
  function Project<K>(indices: seq<nat>, keypoints: seq<K>): (r: seq<K>)
    requires IndicesInRange(indices, |keypoints|)
    ensures |r| == |indices|
    ensures forall i :: 0 <= i < |r| ==> r[i] == keypoints[indices[i]]
  {
    if indices == [] then []
    else [keypoints[indices[0]]] + Project(indices[1..], keypoints)
  }

  /**
   * `getKeypointsByContour`: the keypoints of contour `name`, one per
   * table entry, in table order. The source does not check the indices
   * against the keypoint array; a caller must supply one long enough.
   */
  function GetKeypointsByContour<K>(table: IndexTable, name: ContourName, keypoints: seq<K>): (r: seq<K>)
    requires IndicesInRange(table(name), |keypoints|)
    ensures |r| == |table(name)|
    ensures forall i :: 0 <= i < |r| ==> r[i] == keypoints[table(name)[i]]
  {
    Project(table(name), keypoints)
  }

  /** Projection respects concatenation of index lists, so table order is kept. */
  lemma ProjectAppend<K>(first: seq<nat>, second: seq<nat>, keypoints: seq<K>)
    requires IndicesInRange(first, |keypoints|) && IndicesInRange(second, |keypoints|)
    ensures IndicesInRange(first + second, |keypoints|)
    ensures Project(first + second, keypoints) == Project(first, keypoints) + Project(second, keypoints)
  {
  }

  /**
   * The result depends only on the table entry and on the keypoints it
   * names: two keypoint arrays that agree there give equal results.
   */
  lemma GetKeypointsLocal<K>(table: IndexTable, name: ContourName, keypoints: seq<K>, other: seq<K>)
    requires IndicesInRange(table(name), |keypoints|) && IndicesInRange(table(name), |other|)
    requires forall i :: 0 <= i < |table(name)| ==> keypoints[table(name)[i]] == other[table(name)[i]]
    ensures GetKeypointsByContour(table, name, keypoints) == GetKeypointsByContour(table, name, other)
  {
  }
}

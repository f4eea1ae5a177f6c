/**
  Feature extraction (main.py lines 69-123): the face thresholds, the
  per-hand checks OR-combined across hands, and the thumbs-up count.
  Coordinates are normalised reals; `dist(a, b) < t` is compared as a squared
  distance against `t * t`, which is equivalent for non-negative roots
  (see WithinIffDistBelow).
 */
module Features {
  import opened Options

  /** A landmark; the z coordinate is never read, so it is not modelled. */
  datatype Point = Point(x: real, y: real)

  // Face mesh indices read by the source.
  const Forehead: nat := 10
  const LipTop: nat := 13
  const LipBottom: nat := 14
  const MouthLeft: nat := 61
  const MouthRight: nat := 291
  const LeftLidTop: nat := 159
  const LeftLidBottom: nat := 145
  const RightLidTop: nat := 386
  const RightLidBottom: nat := 374
  const Chin: nat := 152

  // Hand indices read by the source.
  const ThumbTip: nat := 4
  const IndexTip: nat := 8
  const Palm: nat := 9
  const MiddleTip: nat := 12
  const RingTip: nat := 16
  const PinkyTip: nat := 20

  // Thresholds, in normalised image units.
  const MouthOpenGap: real := 0.04
  const SmileGap: real := 0.02
  const EyeClosedGap: real := 0.008
  const HeadUpMargin: real := 0.1
  const HandsCloseDist: real := 0.07
  const FistDist: real := 0.045
  const FingerLipsDist: real := 0.04
  const FistMouthDist: real := 0.08

  /** A face mesh long enough for every index the source reads (386 is the
      largest); the estimator always returns a full mesh. */
  type Face = f: seq<Point> | |f| > RightLidTop witness seq(RightLidTop + 1, _ => Point(0.0, 0.0))

  /** The landmarks of one hand, long enough for every index the source
      reads (20 is the largest). */
  type Hand = h: seq<Point> | |h| > PinkyTip witness seq(PinkyTip + 1, _ => Point(0.0, 0.0))

  /** The landmarks of one frame: every face found (only the first is read)
      and every hand found (all of them are read). */
  datatype Frame = Frame(faces: seq<Face>, hands: seq<Hand>)

  function Abs(r: real): real {
    if r < 0.0 then -r else r
  }

  function SqDist(a: Point, b: Point): real {
    (a.x - b.x) * (a.x - b.x) + (a.y - b.y) * (a.y - b.y)
  }

  /** `dist(a, b) < t`, without the square root. */
  predicate Within(a: Point, b: Point, t: real) {
    SqDist(a, b) < t * t
  }

  /** For any non-negative root d of the squared distance (the value `dist`
      returns), comparing d with a positive threshold agrees with Within. */
  lemma WithinIffDistBelow(a: Point, b: Point, t: real, d: real)
    requires t > 0.0 && d >= 0.0 && d * d == SqDist(a, b)
    ensures Within(a, b, t) <==> d < t
  {
    var dd, dt, tt := d * d, d * t, t * t;
    if d < t {
      assert dd <= dt && dt < tt;
    } else {
      assert dd >= dt && dt >= tt;
    }
  }

  // Per-hand checks of the loop over hands.

  /** All four non-thumb fingertips lie close to the palm centre. */
  predicate IsFist(hand: Hand)
  {
    && Within(hand[IndexTip], hand[Palm], FistDist)
    && Within(hand[MiddleTip], hand[Palm], FistDist)
    && Within(hand[RingTip], hand[Palm], FistDist)
    && Within(hand[PinkyTip], hand[Palm], FistDist)
  }

  predicate FingerOnLips(hand: Hand, face: Face)
  {
    Within(hand[IndexTip], face[LipTop], FingerLipsDist)
  }

  /** The palm is higher on screen (smaller y) than the forehead. */
  predicate AboveForehead(hand: Hand, face: Face)
  {
    hand[Palm].y < face[Forehead].y
  }

  predicate PalmNearMouth(hand: Hand, face: Face)
  {
    Within(hand[Palm], face[LipTop], FistMouthDist)
  }

  /** The thumb tip is higher on screen than the index tip. */
  predicate ThumbUp(hand: Hand)
  {
    hand[ThumbTip].y < hand[IndexTip].y
  }

  /** What the loop over hands accumulates. */
  datatype HandScan = HandScan(fist: bool, fingerLips: bool, handsHead: bool, fistNearMouth: bool, thumbsUp: nat)

  /** The loop over hands, one iteration per recursive step: boolean flags are
      OR-combined and thumbs-up hands are counted. */
  function ScanHands(face: Face, mouthOpen: bool, hands: seq<Hand>): (r: HandScan)
    ensures r.fist <==> exists i :: 0 <= i < |hands| && IsFist(hands[i])
    ensures r.fingerLips <==> exists i :: 0 <= i < |hands| && FingerOnLips(hands[i], face)
    ensures r.handsHead <==> exists i :: 0 <= i < |hands| && AboveForehead(hands[i], face)
    ensures r.fistNearMouth <==> mouthOpen && exists i :: 0 <= i < |hands| && PalmNearMouth(hands[i], face)
    ensures r.thumbsUp == ThumbsUpCount(hands)
    decreases |hands|
  {
    if |hands| == 0 then
      HandScan(false, false, false, false, 0)
    else
      var prefix := hands[..|hands| - 1];
      var hand := hands[|hands| - 1];
      assert forall i :: 0 <= i < |prefix| ==> prefix[i] == hands[i];
      var acc := ScanHands(face, mouthOpen, prefix);
      HandScan(
        acc.fist || IsFist(hand),
        acc.fingerLips || FingerOnLips(hand, face),
        acc.handsHead || AboveForehead(hand, face),
        acc.fistNearMouth || (mouthOpen && PalmNearMouth(hand, face)),
        acc.thumbsUp + (if ThumbUp(hand) then 1 else 0))
  }

  /** The number of hands with the thumb up, counted hand by hand as the loop
      over hands does. */
  function ThumbsUpCount(hands: seq<Hand>): (n: nat)
    ensures n <= |hands|
    ensures n == 0 <==> forall i :: 0 <= i < |hands| ==> !ThumbUp(hands[i])
    decreases |hands|
  {
    if |hands| == 0 then
      0
    else
      var prefix := hands[..|hands| - 1];
      assert forall i :: 0 <= i < |prefix| ==> prefix[i] == hands[i];
      ThumbsUpCount(prefix) + (if ThumbUp(hands[|hands| - 1]) then 1 else 0)
  }

  /** Exactly one hand has its thumb up. */
  predicate ExactlyOneThumbUp(hands: seq<Hand>)
  {
    exists i :: 0 <= i < |hands| && ThumbUp(hands[i]) && OnlyThumbUp(hands, i)
  }

  /** No hand other than hands[i] has its thumb up. */
  predicate OnlyThumbUp(hands: seq<Hand>, i: int)
  {
    forall j :: 0 <= j < |hands| && j != i ==> !ThumbUp(hands[j])
  }

  /** Adding a thumbs-up hand at the end leaves exactly one exactly when no
      earlier hand had its thumb up. */
  lemma ExactlyOneAddingUp(hands: seq<Hand>)
    requires |hands| > 0 && ThumbUp(hands[|hands| - 1])
    ensures ExactlyOneThumbUp(hands) <==> forall j :: 0 <= j < |hands| - 1 ==> !ThumbUp(hands[j])
  {
    var n := |hands| - 1;
    if forall j :: 0 <= j < n ==> !ThumbUp(hands[j]) {
      assert OnlyThumbUp(hands, n);
    }
  }

  /** Adding a hand without thumbs-up at the end changes nothing. */
  lemma ExactlyOneAddingDown(hands: seq<Hand>)
    requires |hands| > 0 && !ThumbUp(hands[|hands| - 1])
    ensures ExactlyOneThumbUp(hands) <==> ExactlyOneThumbUp(hands[..|hands| - 1])
  {
    var n := |hands| - 1;
    var prefix := hands[..n];
    if ExactlyOneThumbUp(hands) {
      var i :| 0 <= i < |hands| && ThumbUp(hands[i]) && OnlyThumbUp(hands, i);
      OnlyInPrefix(hands, i);
    }
    if ExactlyOneThumbUp(prefix) {
      var i :| 0 <= i < n && ThumbUp(prefix[i]) && OnlyThumbUp(prefix, i);
      OnlyExtended(hands, i);
    }
  }

  lemma OnlyInPrefix(hands: seq<Hand>, i: int)
    requires 0 <= i < |hands| && ThumbUp(hands[i]) && OnlyThumbUp(hands, i)
    requires !ThumbUp(hands[|hands| - 1])
    ensures i < |hands| - 1 && ThumbUp(hands[..|hands| - 1][i]) && OnlyThumbUp(hands[..|hands| - 1], i)
  {
  }

  lemma OnlyExtended(hands: seq<Hand>, i: int)
    requires |hands| > 0 && !ThumbUp(hands[|hands| - 1])
    requires 0 <= i < |hands| - 1 && ThumbUp(hands[..|hands| - 1][i]) && OnlyThumbUp(hands[..|hands| - 1], i)
    ensures ThumbUp(hands[i]) && OnlyThumbUp(hands, i)
  {
    var prefix := hands[..|hands| - 1];
    forall j | 0 <= j < |hands| && j != i
      ensures !ThumbUp(hands[j])
    {
      if j < |hands| - 1 {
        assert hands[j] == prefix[j];
      }
    }
  }

  /** The thumbs-up count is one exactly when a single hand has its thumb up. */
  lemma {:induction false} ThumbsUpOneIffExactlyOne(hands: seq<Hand>)
    ensures ThumbsUpCount(hands) == 1 <==> ExactlyOneThumbUp(hands)
    decreases |hands|
  {
    if |hands| > 0 {
      var n := |hands| - 1;
      var prefix := hands[..n];
      assert forall i :: 0 <= i < n ==> prefix[i] == hands[i];
      if ThumbUp(hands[n]) {
        ExactlyOneAddingUp(hands);
      } else {
        ThumbsUpOneIffExactlyOne(prefix);
        ExactlyOneAddingDown(hands);
      }
    }
  }

  /** The per-frame signals the detector reads. */
  datatype FeatureSet = FeatureSet(
    mouthOpen: bool,
    smile: bool,
    eyeClosed: bool,
    headUp: bool,
    handsCount: nat,
    handsClose: bool,
    fist: bool,
    handsHead: bool,
    fingerLips: bool,
    fistNearMouth: bool,
    thumbsUpCount: nat)

  /** The features of a frame whose first face is `face`. */
  function FaceFeatures(face: Face, hands: seq<Hand>): (fs: FeatureSet)
    ensures fs.handsCount == |hands|
    ensures fs.handsClose <==> |hands| == 2 && Within(hands[0][Palm], hands[1][Palm], HandsCloseDist)
    ensures fs.fist <==> exists i :: 0 <= i < |hands| && IsFist(hands[i])
    ensures fs.fistNearMouth <==> fs.mouthOpen && exists i :: 0 <= i < |hands| && PalmNearMouth(hands[i], face)
    ensures fs.handsHead <==> exists i :: 0 <= i < |hands| && AboveForehead(hands[i], face)
    ensures fs.fingerLips <==> exists i :: 0 <= i < |hands| && FingerOnLips(hands[i], face)
    ensures fs.thumbsUpCount == ThumbsUpCount(hands)
  {
    var mouthOpen := Abs(face[LipTop].y - face[LipBottom].y) > MouthOpenGap;
    var smile := Abs(face[MouthLeft].y - face[MouthRight].y) > SmileGap;
    var eyeClosed := Abs(face[LeftLidTop].y - face[LeftLidBottom].y) < EyeClosedGap
                  && Abs(face[RightLidTop].y - face[RightLidBottom].y) < EyeClosedGap;
    var headUp := face[Forehead].y < face[Chin].y - HeadUpMargin;
    var handsClose := |hands| == 2 && Within(hands[0][Palm], hands[1][Palm], HandsCloseDist);
    var scan := ScanHands(face, mouthOpen, hands);
    FeatureSet(mouthOpen, smile, eyeClosed, headUp, |hands|, handsClose,
               scan.fist, scan.handsHead, scan.fingerLips, scan.fistNearMouth, scan.thumbsUp)
  }

  /** The FACE and HANDS blocks of one frame; no face gives no features. */
  function Extract(frame: Frame): (r: Option<FeatureSet>)
    ensures r.None? <==> |frame.faces| == 0
  {
    if |frame.faces| == 0 then None else Some(FaceFeatures(frame.faces[0], frame.hands))
  }
}

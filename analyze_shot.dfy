/**
 The browser side of a shot (wwwroot/js/analyzeShot.js): for a few seconds,
 every detection step looks up five named joints in the first detected pose
 and, when all five are there, appends one frame whose index is its position;
 at the end the frames are posted to the server.

 The pose detector's output for each step is an input; the angle and
 distance computations are left uninterpreted (the two arrow-typed constants
 of `ShotAnalyzer`); the 5-second window becomes the number of steps taken.
 */
module AnalyzeShot {
  import opened Wrappers
  import opened AnalysisHelper

  /** One keypoint of a pose: a joint name, its image position and its score. */
  datatype Keypoint = Keypoint(name: string, x: real, y: real, score: real)

  /** One detected person. */
  datatype Pose = Pose(keypoints: seq<Keypoint>)

  /** `angleBetween(a, b, c)`: the angle at `b`, in degrees. */
  type AngleFn = (Keypoint, Keypoint, Keypoint) -> real

  /** `distance(a, b)`: the distance between two keypoints. */
  type DistanceFn = (Keypoint, Keypoint) -> real

  /** The body `sendData` posts. */
  datatype Payload = Payload(userName: string, frames: seq<FramePose>)

  const DemoUser := "DemoUser"

  const LeftShoulder := "left_shoulder"
  const LeftElbow := "left_elbow"
  const LeftWrist := "left_wrist"
  const LeftAnkle := "left_ankle"
  const RightAnkle := "right_ankle"

  /** Some keypoint carries this name. */
  predicate Has(kp: seq<Keypoint>, name: string) {
    exists i :: 0 <= i < |kp| && kp[i].name == name
  }

  /** `kp.find(k => k.name === name)`: the first keypoint with that name, if any. */
  function Find(kp: seq<Keypoint>, name: string): (r: Option<Keypoint>)
    ensures r.None? <==> !Has(kp, name)
    ensures r.Some? ==> r.value.name == name
    ensures r.Some? ==> exists i :: 0 <= i < |kp| && kp[i] == r.value &&
                                  forall j :: 0 <= j < i ==> kp[j].name != name
  {
    if kp == [] then None
    else if kp[0].name == name then Some(kp[0])
    else
      var r := Find(kp[1..], name);
      assert Has(kp, name) ==> Has(kp[1..], name) by {
        if Has(kp, name) {
          var i :| 0 <= i < |kp| && kp[i].name == name;
          assert kp[1..][i - 1].name == name;
        }
      }
      assert r.Some? ==> exists i :: 0 <= i < |kp| && kp[i] == r.value &&
                                    forall j :: 0 <= j < i ==> kp[j].name != name by {
        if r.Some? {
          var i :| 0 <= i < |kp[1..]| && kp[1..][i] == r.value &&
                   forall j :: 0 <= j < i ==> kp[1..][j].name != name;
          assert kp[i + 1] == r.value;
          assert forall j :: 0 <= j < i + 1 ==> kp[j].name != name by {
            forall j | 0 <= j < i + 1 ensures kp[j].name != name {
              if j > 0 { assert kp[j] == kp[1..][j - 1]; }
            }
          }
        }
      }
      r
  }

  /** The five joints a step needs are all in the pose. */
  predicate HasRequiredJoints(kp: seq<Keypoint>) {
    Has(kp, LeftShoulder) && Has(kp, LeftElbow) && Has(kp, LeftWrist) &&
    Has(kp, LeftAnkle) && Has(kp, RightAnkle)
  }

  /**
   The frame one detection step records, given the poses the detector
   returned: none without a pose or without one of the five joints; otherwise
   the angle at the first `left_elbow` (between the first `left_shoulder` and
   the first `left_wrist`) and the distance between the first `left_ankle` and
   the first `right_ankle`, tagged with `frameIndex`.
   */
  function DetectedFrame(poses: seq<Pose>, frameIndex: int, angleBetween: AngleFn, distance: DistanceFn)
    : (r: Option<FramePose>)
    ensures r.None? <==> |poses| == 0 || !HasRequiredJoints(poses[0].keypoints)
    ensures r.Some? ==>
      var kp := poses[0].keypoints;
      && r.value.frameIndex == frameIndex
      && r.value.elbowAngle ==
           angleBetween(Find(kp, LeftShoulder).value, Find(kp, LeftElbow).value, Find(kp, LeftWrist).value)
      && r.value.feetDistance == distance(Find(kp, LeftAnkle).value, Find(kp, RightAnkle).value)
  {
    if |poses| == 0 then None
    else
      var kp := poses[0].keypoints;
      var leftShoulder, leftElbow, leftWrist := Find(kp, LeftShoulder), Find(kp, LeftElbow), Find(kp, LeftWrist);
      var leftAnkle, rightAnkle := Find(kp, LeftAnkle), Find(kp, RightAnkle);
      if leftShoulder.Some? && leftElbow.Some? && leftWrist.Some? && leftAnkle.Some? && rightAnkle.Some? then
        Some(FramePose(frameIndex,
                       angleBetween(leftShoulder.value, leftElbow.value, leftWrist.value),
                       distance(leftAnkle.value, rightAnkle.value)))
      else None
  }

  /** The frames after one detection step. */
  function Step(frames: seq<FramePose>, poses: seq<Pose>, angleBetween: AngleFn, distance: DistanceFn)
    : seq<FramePose>
  {
    match DetectedFrame(poses, |frames|, angleBetween, distance)
    case Some(frame) => frames + [frame]
    case None => frames
  }

  /** The frames after a run of detection steps, one per element of `cycles`, in order. */
  function Accumulate(frames: seq<FramePose>, cycles: seq<seq<Pose>>, angleBetween: AngleFn, distance: DistanceFn)
    : seq<FramePose>
    decreases |cycles|
  {
    if cycles == [] then frames
    else
      var last := |cycles| - 1;
      Step(Accumulate(frames, cycles[..last], angleBetween, distance), cycles[last], angleBetween, distance)
  }

  /** The run of the first `n` steps is the run of the first `n - 1` followed by step `n`. */
  lemma AccumulatePrefix(frames: seq<FramePose>, cycles: seq<seq<Pose>>, n: nat,
                         angleBetween: AngleFn, distance: DistanceFn)
    requires 0 < n <= |cycles|
    ensures Accumulate(frames, cycles[..n], angleBetween, distance)
            == Step(Accumulate(frames, cycles[..n - 1], angleBetween, distance), cycles[n - 1], angleBetween, distance)
  {
    assert cycles[..n][..n - 1] == cycles[..n - 1];
  }

  /** Every frame's index is its position. */
  ghost predicate Indexed(frames: seq<FramePose>) {
    forall i :: 0 <= i < |frames| ==> frames[i].frameIndex == i
  }

  /** A step appends at most one frame, keeps the earlier ones, and keeps indices equal to positions. */
  lemma StepProperties(frames: seq<FramePose>, poses: seq<Pose>, angleBetween: AngleFn, distance: DistanceFn)
    ensures var next := Step(frames, poses, angleBetween, distance);
      && |frames| <= |next| <= |frames| + 1
      && next[..|frames|] == frames
      && (Indexed(frames) ==> Indexed(next))
  {
  }

  /** A step without a pose, or without one of the five joints, changes nothing. */
  lemma StepWithoutJointsChangesNothing(frames: seq<FramePose>, poses: seq<Pose>,
                                        angleBetween: AngleFn, distance: DistanceFn)
    requires |poses| == 0 || !HasRequiredJoints(poses[0].keypoints)
    ensures Step(frames, poses, angleBetween, distance) == frames
  {
  }

  /**
   After any run of steps the frames only grew, by at most one per step, the
   earlier frames are untouched, and every index still equals its position.
   */
  lemma {:induction false} AccumulateProperties(frames: seq<FramePose>, cycles: seq<seq<Pose>>,
                                                angleBetween: AngleFn, distance: DistanceFn)
    ensures var after := Accumulate(frames, cycles, angleBetween, distance);
      && |frames| <= |after| <= |frames| + |cycles|
      && after[..|frames|] == frames
      && (Indexed(frames) ==> Indexed(after))
    decreases |cycles|
  {
    if cycles != [] {
      var last := |cycles| - 1;
      var before := Accumulate(frames, cycles[..last], angleBetween, distance);
      AccumulateProperties(frames, cycles[..last], angleBetween, distance);
      StepProperties(before, cycles[last], angleBetween, distance);
      var after := Accumulate(frames, cycles, angleBetween, distance);
      assert after[..|frames|] == after[..|before|][..|frames|];
    }
  }

  /** A capture in which the detector never sees a person records no frame. */
  lemma {:induction false} NoPoseNoFrames(frames: seq<FramePose>, cycles: seq<seq<Pose>>,
                                          angleBetween: AngleFn, distance: DistanceFn)
    requires forall i :: 0 <= i < |cycles| ==> |cycles[i]| == 0
    ensures Accumulate(frames, cycles, angleBetween, distance) == frames
    decreases |cycles|
  {
    if cycles != [] {
      var last := |cycles| - 1;
      assert |cycles[last]| == 0;
      NoPoseNoFrames(frames, cycles[..last], angleBetween, distance);
    }
  }

  /** The state of `analyzeShot.js`: the frames of the current capture and the two geometry helpers. */
  class ShotAnalyzer {
    const angleBetween: AngleFn
    const distance: DistanceFn
    var frames: seq<FramePose>

    ghost predicate Valid()
      reads this
    {
      Indexed(frames)
    }

    /** The page loads with no frames. */
    constructor (angleBetween: AngleFn, distance: DistanceFn)
      ensures this.angleBetween == angleBetween && this.distance == distance
      ensures frames == [] && Valid()
    {
      this.angleBetween := angleBetween;
      this.distance := distance;
      frames := [];
    }

    /** One pass of `detectFrame`, given what the detector returned. */
    method DetectFrame(poses: seq<Pose>)
      requires Valid()
      modifies this
      ensures Valid()
      ensures frames == Step(old(frames), poses, angleBetween, distance)
    {
      StepProperties(frames, poses, angleBetween, distance);
      if |poses| > 0 {
        var kp := poses[0].keypoints;
        var leftShoulder := Find(kp, LeftShoulder);
        var leftElbow := Find(kp, LeftElbow);
        var leftWrist := Find(kp, LeftWrist);
        var leftAnkle := Find(kp, LeftAnkle);
        var rightAnkle := Find(kp, RightAnkle);

        if leftShoulder.Some? && leftElbow.Some? && leftWrist.Some? && leftAnkle.Some? && rightAnkle.Some? {
          var elbowAngle := angleBetween(leftShoulder.value, leftElbow.value, leftWrist.value);
          var feetDistance := distance(leftAnkle.value, rightAnkle.value);
          frames := frames + [FramePose(|frames|, elbowAngle, feetDistance)];
        }
      }
    }

    /**
     `startAnalysis`: clears the frames, runs `detectFrame` once and then once
     more for every element of `later` (the steps taken before the window
     closed), and returns the body `sendData` posts.
     */
    method StartAnalysis(first: seq<Pose>, later: seq<seq<Pose>>) returns (payload: Payload)
      modifies this
      ensures Valid()
      ensures frames == Accumulate([], [first] + later, angleBetween, distance)
      ensures payload == Payload(DemoUser, frames)
    {
      ghost var cycles := [first] + later;
      frames := [];
      DetectFrame(first);
      AccumulatePrefix([], cycles, 1, angleBetween, distance);
      var i := 0;
      while i < |later|
        invariant 0 <= i <= |later|
        invariant Valid()
        invariant frames == Accumulate([], cycles[..i + 1], angleBetween, distance)
      {
        AccumulatePrefix([], cycles, i + 2, angleBetween, distance);
        assert cycles[i + 1] == later[i];
        DetectFrame(later[i]);
        i := i + 1;
      }
      assert cycles[..i + 1] == cycles;
      payload := Payload(DemoUser, frames);
    }
  }
}

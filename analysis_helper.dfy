/**
 The feedback engine of Fix My Shot (Helpers/AnalysisHelper.cs): a threshold
 classifier from the two averaged metrics of a shot to two coaching tips, and
 the per-frame record the browser sends to the server.

 Metrics are `real`s; the C# code works on `float`.
 */
module AnalysisHelper {

  /** One frame of a captured shot, as the client posts it. */
  datatype FramePose = FramePose(frameIndex: int, elbowAngle: real, feetDistance: real)

  // The six messages, spelled as the application shows them (the longer
  // ones are written as concatenations of shorter literals).
  const ElbowTooLow :=
    "Your elbow is too low. " + "Try lifting it up to shoulder level."
  const ArmTooStraight :=
    "Your arm is to straight and high, " + "keep a bend in your elbow and " + "lower it to your shoulder level."
  const GreatElbow := "Great elbow postion on your shot!"
  const FeetTooClose :=
    "Your feet are to close to eachother. " + "Widen your stance so your feet " + "are a shoulder width apart."
  const StanceTooWide :=
    "Your stance is too wide. " + "Bring your feet in to so they " + "are a shoulder width apart"
  const PerfectStance := "Perfect shooting stance!"

  // Band edges of the classifier.
  const ElbowLowAbove: real := 90.0
  const ArmStraightAbove: real := 160.0
  const FeetCloseBelow: real := 0.2
  const FeetWideAbove: real := 0.7

  /** The tips an elbow tip can be. */
  predicate IsElbowTip(t: string) {
    t == ElbowTooLow || t == ArmTooStraight || t == GreatElbow
  }

  /** The tips a feet tip can be. */
  predicate IsFeetTip(t: string) {
    t == FeetTooClose || t == StanceTooWide || t == PerfectStance
  }

  /**
   TipGeneration, with the elbow chain kept in the order the code tests it:
   the `> 160` test comes after the `> 90` test, so it never decides anything.
   */
  function TipGeneration(avgElbow: real, avgFeet: real): (tips: seq<string>)
    ensures |tips| == 2
    ensures IsElbowTip(tips[0]) && IsFeetTip(tips[1])
    ensures tips[0] == ElbowTooLow <==> avgElbow > 90.0
    ensures tips[0] == GreatElbow <==> avgElbow <= 90.0
    ensures tips[0] != ArmTooStraight
    ensures tips[1] == FeetTooClose <==> avgFeet < 0.2
    ensures tips[1] == StanceTooWide <==> avgFeet > 0.7
    ensures tips[1] == PerfectStance <==> 0.2 <= avgFeet <= 0.7
  {
    var elbowTip :=
      if avgElbow > ElbowLowAbove then ElbowTooLow
      else if avgElbow > ArmStraightAbove then ArmTooStraight
      else GreatElbow;
    var feetTip :=
      if avgFeet < FeetCloseBelow then FeetTooClose
      else if avgFeet > FeetWideAbove then StanceTooWide
      else PerfectStance;
    [elbowTip, feetTip]
  }

  /** The "straight and high" tip is produced for no input at all. */
  lemma ArmTooStraightNeverProduced(avgElbow: real, avgFeet: real)
    ensures ArmTooStraight !in TipGeneration(avgElbow, avgFeet)
  {
  }

  /** Every elbow angle above 160 degrees is told that the elbow is too low. */
  lemma StraightArmIsToldElbowTooLow(avgElbow: real, avgFeet: real)
    requires avgElbow > ArmStraightAbove
    ensures TipGeneration(avgElbow, avgFeet)[0] == ElbowTooLow
  {
  }

  /** The first tip depends on the elbow angle alone, the second on the feet distance alone. */
  lemma TipsAreIndependent(e1: real, f1: real, e2: real, f2: real)
    ensures e1 == e2 ==> TipGeneration(e1, f1)[0] == TipGeneration(e2, f2)[0]
    ensures f1 == f2 ==> TipGeneration(e1, f1)[1] == TipGeneration(e2, f2)[1]
  {
  }

  /** Every elbow tip is a single line of text. */
  lemma ElbowTipIsOneLine(t: string)
    requires IsElbowTip(t)
    ensures '\n' !in t
  {
    // One literal per case: without the split the solver runs out of
    // resource on some seeds.
    if t == ElbowTooLow {
      assert '\n' !in ElbowTooLow;
    } else if t == ArmTooStraight {
      assert '\n' !in ArmTooStraight;
    } else {
      assert '\n' !in GreatElbow;
    }
  }

  /** Every feet tip is a single line of text. */
  lemma FeetTipIsOneLine(t: string)
    requires IsFeetTip(t)
    ensures '\n' !in t
  {
    if t == FeetTooClose {
      assert '\n' !in FeetTooClose;
    } else if t == StanceTooWide {
      assert '\n' !in StanceTooWide;
    } else {
      assert '\n' !in PerfectStance;
    }
  }
}

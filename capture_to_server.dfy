/**
 The browser's capture meets the server's request check: the body
 `sendData` posts is bound to a `ShotAnalysisRequest`, whose `userName`
 SaveAnalysis never reads.
 */
module CaptureToServer {
  import opened Wrappers
  import opened AnalysisHelper
  import opened HomeController
  import opened AnalyzeShot

  /** The request the server binds from a posted body. */
  function AsRequest(body: Payload): ShotAnalysisRequest {
    ShotAnalysisRequest(body.userName, Some(body.frames))
  }

  /**
   A capture that recorded no frame is turned away; any other capture reaches
   the averaging step with its frames unchanged, numbered from zero.
   */
  lemma PostedCapture(cycles: seq<seq<Pose>>, angleBetween: AngleFn, distance: DistanceFn)
    ensures var frames := Accumulate([], cycles, angleBetween, distance);
      var received := RequestFrames(Some(AsRequest(Payload(DemoUser, frames))));
      && (received.None? <==> frames == [])
      && (received.Some? ==> received.value == frames && Indexed(received.value))
  {
    AccumulateProperties([], cycles, angleBetween, distance);
  }

  /** A capture in which no person is ever detected ends in the server's "no frame data" answer. */
  lemma CaptureWithoutPersonIsRejected(cycles: seq<seq<Pose>>, angleBetween: AngleFn, distance: DistanceFn)
    requires forall i :: 0 <= i < |cycles| ==> |cycles[i]| == 0
    ensures RequestFrames(Some(AsRequest(Payload(DemoUser, Accumulate([], cycles, angleBetween, distance))))) == None
  {
    NoPoseNoFrames([], cycles, angleBetween, distance);
  }
}

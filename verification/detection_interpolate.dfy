/** Interpolation of detections between two key frames: `LinearInterpolation`
    asks the left point for its prediction towards the right point at every
    in-between step. The point type and its `predict` are parameters (the
    prediction arithmetic is not part of this model). */
module DetectionInterpolation {
  import opened Numeric

  /** `lhs.predict(rhs, numFrames, step)`. */
  type Predictor<!T> = (T, T, int, int) -> T

  /** The interpolation strategies `interpolate_sequence` can be instantiated with. */
  datatype InterpType = LinearInterpolation

  /** The steps requested, in order: `1, 2, …, numFrames`, none for a count below 1.
      They rise strictly within `[1, numFrames]`, so step 0 is never requested. */
  function InterpolationSteps(numFrames: int): (steps: seq<int>)
    ensures |steps| == Max(numFrames, 0)
    ensures forall i :: 0 <= i < |steps| ==> 1 <= steps[i] <= numFrames
    ensures forall i, j :: 0 <= i < j < |steps| ==> steps[i] < steps[j]
    ensures 0 !in steps
  {
    seq(Max(numFrames, 0), i => i + 1)
  }

  /** `LinearInterpolation::interpolate`: one prediction per step, in step order. */
  method Interpolate<T>(predict: Predictor<T>, lhs: T, rhs: T, numFrames: int) returns (bboxInterpolation: seq<T>)
    ensures |bboxInterpolation| == Max(numFrames, 0)
    ensures forall i :: 0 <= i < |bboxInterpolation| ==> bboxInterpolation[i] == predict(lhs, rhs, numFrames, i + 1)
  {
    bboxInterpolation := [];
    var i := 0;
    while i < numFrames
      invariant 0 <= i <= Max(numFrames, 0)
      invariant |bboxInterpolation| == i
      invariant forall k :: 0 <= k < i ==> bboxInterpolation[k] == predict(lhs, rhs, numFrames, k + 1)
    {
      bboxInterpolation := bboxInterpolation + [predict(lhs, rhs, numFrames, i + 1)];
      i := i + 1;
    }
  }

  /** `interpolate_sequence<PtT, InterpType>`: the chosen strategy's result. */
  method InterpolateSequence<T>(interp: InterpType, predict: Predictor<T>, lhsPt: T, rhsPt: T, numFrames: int) returns (r: seq<T>)
    ensures |r| == |InterpolationSteps(numFrames)|
    ensures forall i :: 0 <= i < |r| ==> r[i] == predict(lhsPt, rhsPt, numFrames, InterpolationSteps(numFrames)[i])
  {
    match interp
    case LinearInterpolation =>
      r := Interpolate(predict, lhsPt, rhsPt, numFrames);
  }
}

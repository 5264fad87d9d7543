/** Trend segmentation: only the points after the last day-to-day step are fitted. */
module Capacity {
  import opened Wrappers

  datatype Point = Point(ts: int, used: int)

  function Abs(x: int): (r: int)
    ensures r >= 0 && (r == x || r == -x)
  {
    if x < 0 then -x else x
  }

  /** A day-to-day change of at least a tenth of the total. */
  predicate Step(points: seq<Point>, i: int, total: int) {
    1 <= i < |points| && 10 * Abs(points[i].used - points[i - 1].used) >= total
  }

  predicate StepFree(points: seq<Point>, total: int) {
    forall i :: 1 <= i < |points| ==> !Step(points, i, total)
  }

  /** `points[cut..]` is the longest suffix without a step. */
  ghost predicate LongestStepFree(points: seq<Point>, total: int, cut: nat) {
    && (cut < |points| || cut == 0)
    && StepFree(points[cut..], total)
    && forall c :: 0 <= c < cut ==> !StepFree(points[c..], total)
  }

  method AfterLastStep(points: seq<Point>, total: int) returns (segment: seq<Point>, steppedAt: Option<int>)
    ensures total == 0 ==> segment == points && steppedAt == None
    ensures total != 0 ==>
              exists cut: nat :: LongestStepFree(points, total, cut) && segment == points[cut..] &&
                  steppedAt == StepTime(points, cut)
    ensures total != 0 ==> forall i :: 1 <= i < |segment| ==> 10 * Abs(segment[i].used - segment[i - 1].used) < total
    ensures steppedAt.Some? <==> |segment| < |points|
    ensures steppedAt.Some? ==>
              var cut := |points| - |segment|;
              && segment == points[cut..] && segment != [] && steppedAt == Some(segment[0].ts)
              && 10 * Abs(points[cut].used - points[cut - 1].used) >= total
  {
    hide LongestStepFree, Abs;
    if total == 0 {
      return points, None;
    }
    var cut, i := 0, 1;
    steppedAt := None;
    while i < |points|
      invariant cut < i && (cut < |points| || cut == 0) && 1 <= i
      invariant forall j :: cut < j < i ==> !Step(points, j, total)
      invariant cut > 0 ==> Step(points, cut, total)
      invariant steppedAt == StepTime(points, cut)
    {
      if Step(points, i, total) {
        cut, steppedAt := i, Some(points[i].ts);
      }
      i := i + 1;
    }
    segment := points[cut..];
    forall i | 1 <= i < |segment| ensures 10 * Abs(segment[i].used - segment[i - 1].used) < total {
      assert !Step(points, cut + i, total);
    }
    SuffixIsLongest(points, total, cut);
  }

  /** A step time is reported exactly when the segment is a proper one, and then it is its first point's. */
  function StepTime(points: seq<Point>, cut: nat): Option<int> {
    if 0 < cut < |points| then Some(points[cut].ts) else None
  }

  lemma {:induction false} SuffixIsLongest(points: seq<Point>, total: int, cut: nat)
    requires cut < |points| || cut == 0
    requires forall j :: cut < j < |points| ==> !Step(points, j, total)
    requires cut > 0 ==> Step(points, cut, total)
    ensures LongestStepFree(points, total, cut)
  {
    forall i | 1 <= i < |points[cut..]| ensures !Step(points[cut..], i, total) {
      assert !Step(points, cut + i, total);
    }
    forall c | 0 <= c < cut ensures !StepFree(points[c..], total) {
      assert Step(points[c..], cut - c, total);
    }
  }

  /** The cut is determined by the series, and cutting its own segment again cuts nothing. */
  lemma {:induction false} CuttingTwiceIsCuttingOnce(points: seq<Point>, total: int, cut: nat, again: nat)
    requires LongestStepFree(points, total, cut)
    ensures LongestStepFree(points[cut..], total, again) ==> again == 0 && StepTime(points[cut..], again) == None
    ensures LongestStepFree(points, total, again) ==> again == cut
  {
    assert points[cut..][0..] == points[cut..];
  }
}

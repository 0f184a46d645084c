/**
 * Worked tracks for `find_bounces`. Every point is confidently detected and projects to the
 * middle of the table, so only the shape of screen-y and the debounce decide.
 */
module BounceExamples {
  import opened Wrappers
  import opened TableGeometry
  import opened BounceDetection

  const MID: Point := Point(1.0, 0.5)

  function Track(frames: seq<int>, ys: seq<real>): (t: seq<TrackPoint>)
    requires |frames| == |ys|
    ensures |t| == |ys|
  {
    seq(|ys|, j requires 0 <= j < |ys| => TrackPoint(frames[j], 0.0, ys[j]))
  }

  function Centred(n: nat): seq<Option<Point>> { seq(n, _ => Some(MID)) }

  function Confident(n: nat): seq<real> { seq(n, _ => 0.9) }

  /** Screen-y falling to a minimum and rising again is NOT a bounce: the scan looks for maxima. */
  lemma MinimumIsNoBounce()
    ensures Bounces(Track([0, 1, 2, 3, 4], [10.0, 5.0, 2.0, 5.0, 10.0]), 30.0, Centred(5), Confident(5), DEFAULT_MIN_GAP_S) == []
  {
    var t := Track([0, 1, 2, 3, 4], [10.0, 5.0, 2.0, 5.0, 10.0]);
    assert !IsCandidate(t, Centred(5), Confident(5), 1);
    assert !IsCandidate(t, Centred(5), Confident(5), 2);
    assert !IsCandidate(t, Centred(5), Confident(5), 3);
    PickedNoneBefore(t, Centred(5), Confident(5), MinGapFrames(DEFAULT_MIN_GAP_S, 30.0), 4);
  }

  /** The ball lowest in the image at frame 2 gives exactly one bounce there. */
  lemma PeakIsOneBounce()
    ensures Bounces(Track([0, 1, 2, 3, 4], [2.0, 5.0, 10.0, 5.0, 2.0]), 30.0, Centred(5), Confident(5), DEFAULT_MIN_GAP_S)
         == [Bounce(2, 1.0, 0.5, 0.9)]
  {
    var t := Track([0, 1, 2, 3, 4], [2.0, 5.0, 10.0, 5.0, 2.0]);
    var g := MinGapFrames(DEFAULT_MIN_GAP_S, 30.0);
    assert g == 7;
    assert !IsCandidate(t, Centred(5), Confident(5), 1);
    assert IsCandidate(t, Centred(5), Confident(5), 2);
    assert !IsCandidate(t, Centred(5), Confident(5), 3);
    FirstCandidateReported(t, Centred(5), Confident(5), g, 2);
    PickedStep(t, Centred(5), Confident(5), g, 4);
    PickedStep(t, Centred(5), Confident(5), g, 3);
    PickedNoneBefore(t, Centred(5), Confident(5), g, 2);
  }

  /** Equal neighbours never make a bounce, whether the tie is at the bottom or at the top. */
  lemma PlateausAreNoBounce()
    ensures Bounces(Track([0, 1, 2, 3], [10.0, 5.0, 5.0, 10.0]), 30.0, Centred(4), Confident(4), DEFAULT_MIN_GAP_S) == []
    ensures Bounces(Track([0, 1, 2, 3], [5.0, 10.0, 10.0, 5.0]), 30.0, Centred(4), Confident(4), DEFAULT_MIN_GAP_S) == []
  {
    var g := MinGapFrames(DEFAULT_MIN_GAP_S, 30.0);
    var t1 := Track([0, 1, 2, 3], [10.0, 5.0, 5.0, 10.0]);
    assert !IsCandidate(t1, Centred(4), Confident(4), 1) && !IsCandidate(t1, Centred(4), Confident(4), 2);
    PickedNoneBefore(t1, Centred(4), Confident(4), g, 3);
    var t2 := Track([0, 1, 2, 3], [5.0, 10.0, 10.0, 5.0]);
    assert !IsCandidate(t2, Centred(4), Confident(4), 1) && !IsCandidate(t2, Centred(4), Confident(4), 2);
    PickedNoneBefore(t2, Centred(4), Confident(4), g, 3);
  }

  /** Neighbours are the adjacent track entries, however many frames lie between them. */
  lemma NeighboursAcrossMissingFrames()
    ensures Bounces(Track([0, 5, 40], [1.0, 3.0, 2.0]), 30.0, Centred(3), Confident(3), DEFAULT_MIN_GAP_S)
         == [Bounce(5, 1.0, 0.5, 0.9)]
  {
    var t := Track([0, 5, 40], [1.0, 3.0, 2.0]);
    var g := MinGapFrames(DEFAULT_MIN_GAP_S, 30.0);
    assert g == 7;
    assert IsCandidate(t, Centred(3), Confident(3), 1);
    FirstCandidateReported(t, Centred(3), Confident(3), g, 1);
  }

  /** Two peaks exactly seven frames apart. */
  const TWO_PEAKS: seq<TrackPoint> := Track([0, 1, 2, 7, 8, 9], [0.0, 1.0, 0.0, 0.0, 1.0, 0.0])

  lemma TwoPeaksCandidates()
    ensures Lockstep(TWO_PEAKS, Centred(6), Confident(6))
    ensures IsCandidate(TWO_PEAKS, Centred(6), Confident(6), 1)
    ensures !IsCandidate(TWO_PEAKS, Centred(6), Confident(6), 2)
    ensures !IsCandidate(TWO_PEAKS, Centred(6), Confident(6), 3)
    ensures IsCandidate(TWO_PEAKS, Centred(6), Confident(6), 4)
  {
  }

  lemma TwoPeaksPickedFirst(g: int)
    requires g == 7
    ensures Lockstep(TWO_PEAKS, Centred(6), Confident(6))
    ensures Picked(TWO_PEAKS, Centred(6), Confident(6), g, 4) == [1]
  {
    var t, pr, cf := TWO_PEAKS, Centred(6), Confident(6);
    TwoPeaksCandidates();
    PickedNoneBefore(t, pr, cf, g, 1);
    FirstCandidateReported(t, pr, cf, g, 1);
    PickedStep(t, pr, cf, g, 3);
    PickedStep(t, pr, cf, g, 4);
  }

  lemma TwoPeaksPicked(g: int)
    requires g == 7
    ensures Lockstep(TWO_PEAKS, Centred(6), Confident(6))
    ensures Picked(TWO_PEAKS, Centred(6), Confident(6), g, 5) == [1, 4]
  {
    var t, pr, cf := TWO_PEAKS, Centred(6), Confident(6);
    TwoPeaksCandidates();
    TwoPeaksPickedFirst(g);
    assert LastFrame(t, [1]) == 1;
    PickedStep(t, pr, cf, g, 5);
  }

  /**
   * At 30 fps the debounce is int(0.25 * 30) = 7 frames, not 7.5: two bounces exactly 7 frames
   * apart are both reported.
   */
  lemma DebounceIsTruncated()
    ensures DEFAULT_MIN_GAP_S * 30.0 == 7.5 && MinGapFrames(DEFAULT_MIN_GAP_S, 30.0) == 7
    ensures Bounces(TWO_PEAKS, 30.0, Centred(6), Confident(6), DEFAULT_MIN_GAP_S)
         == [Bounce(1, 1.0, 0.5, 0.9), Bounce(8, 1.0, 0.5, 0.9)]
  {
    var g := MinGapFrames(DEFAULT_MIN_GAP_S, 30.0);
    assert g == 7;
    TwoPeaksPicked(g);
  }
}

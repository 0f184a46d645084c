/**
 * `find_bounces`: one pass over the sparse ball track that reports strict local maxima of
 * screen-y (the ball lowest in the image), gated by confidence and by the table margin,
 * and debounced by a whole number of frames.
 */
module BounceDetection {
  import opened Wrappers
  import opened Numbers
  import opened TableGeometry

  /** Candidates below this confidence are skipped. */
  const MIN_CONF: real := 0.15
  /** Margin the bounce gate passes to `inside_table`. */
  const BOUNCE_MARGIN: real := 0.05
  /** Initial "last bounce frame": far enough back that the first candidate passes the debounce. */
  const NO_BOUNCE_YET: int := -1000000000
  /** Debounce interval the pipeline passes, in seconds. */
  const DEFAULT_MIN_GAP_S: real := 0.25

  /** One entry of the track: a frame that had a detection, and its image position. */
  datatype TrackPoint = TrackPoint(frame: int, x: real, y: real)

  /** One emitted bounce: frame, table position in metres, confidence. */
  datatype Bounce = Bounce(frame: int, x: real, y: real, conf: real)

  /** The track, the projected points and the confidences are parallel lists. */
  predicate Lockstep(track: seq<TrackPoint>, proj: seq<Option<Point>>, confs: seq<real>) {
    |proj| == |track| && |confs| == |track|
  }

  /** `inside_table(xy_m, margin=0.05)`; a non-finite projection never passes. */
  predicate InsideGate(q: Option<Point>) {
    q.Some? && InsideTable(q.value, BOUNCE_MARGIN)
  }

  /** Interior index i is a strict local maximum of screen-y among its track neighbours. */
  predicate IsLocalMax(track: seq<TrackPoint>, i: int)
    requires 1 <= i && i + 1 < |track|
  {
    track[i - 1].y < track[i].y && track[i].y > track[i + 1].y
  }

  /** Index i survives every gate except the debounce. */
  predicate IsCandidate(track: seq<TrackPoint>, proj: seq<Option<Point>>, confs: seq<real>, i: int)
    requires Lockstep(track, proj, confs)
  {
    1 <= i && i + 1 < |track| && IsLocalMax(track, i) && confs[i] >= MIN_CONF && InsideGate(proj[i])
  }

  /**
   * A candidate is an interior index that is a strict local maximum, has a projection inside
   * the table widened by 0.05 m and a confidence of at least 0.15.
   */
  lemma CandidateGates(track: seq<TrackPoint>, proj: seq<Option<Point>>, confs: seq<real>, i: int)
    requires Lockstep(track, proj, confs) && IsCandidate(track, proj, confs, i)
    ensures 0 < i < |track| - 1 && track[i].y > track[i - 1].y && track[i].y > track[i + 1].y
    ensures proj[i].Some? && confs[i] >= MIN_CONF
    ensures -BOUNCE_MARGIN <= proj[i].value.x <= TABLE_W + BOUNCE_MARGIN
    ensures -BOUNCE_MARGIN <= proj[i].value.y <= TABLE_H + BOUNCE_MARGIN
  {
  }

  /** `min_gap = int(min_gap_s * fps)`: truncated, not the exact product. */
  function MinGapFrames(minGapS: real, fps: real): int {
    Trunc(minGapS * fps)
  }

  /** Frame of the last accepted index, or the initial sentinel when nothing was accepted yet. */
  function LastFrame(track: seq<TrackPoint>, picks: seq<nat>): int
    requires forall j :: 0 <= j < |picks| ==> picks[j] < |track|
  {
    if picks == [] then NO_BOUNCE_YET else track[picks[|picks| - 1]].frame
  }

  /**
   * The track indices accepted among the interior indices below k, in the order the scan
   * accepts them: a candidate is accepted when its frame is at least `minGap` after the
   * frame of the last accepted one.
   */
  function Picked(track: seq<TrackPoint>, proj: seq<Option<Point>>, confs: seq<real>, minGap: int, k: nat)
    : (picks: seq<nat>)
    requires Lockstep(track, proj, confs) && k <= |track|
    ensures forall j :: 0 <= j < |picks| ==> picks[j] < k && IsCandidate(track, proj, confs, picks[j])
    decreases k
  {
    if k <= 1 then []
    else
      var prev := Picked(track, proj, confs, minGap, k - 1);
      var i := k - 1;
      if IsCandidate(track, proj, confs, i) && track[i].frame - LastFrame(track, prev) >= minGap
      then prev + [i]
      else prev
  }

  /** The bounce reported for index i. */
  function Entry(track: seq<TrackPoint>, proj: seq<Option<Point>>, confs: seq<real>, i: nat): Bounce
    requires Lockstep(track, proj, confs) && i < |track| && proj[i].Some?
  {
    Bounce(track[i].frame, proj[i].value.x, proj[i].value.y, confs[i])
  }

  function Entries(track: seq<TrackPoint>, proj: seq<Option<Point>>, confs: seq<real>, picks: seq<nat>)
    : (bs: seq<Bounce>)
    requires Lockstep(track, proj, confs)
    requires forall j :: 0 <= j < |picks| ==> picks[j] < |track| && proj[picks[j]].Some?
    ensures |bs| == |picks|
    ensures forall j :: 0 <= j < |picks| ==> bs[j] == Entry(track, proj, confs, picks[j])
  {
    seq(|picks|, j requires 0 <= j < |picks| => Entry(track, proj, confs, picks[j]))
  }

  /** Accepting one more index appends its entry and makes its frame the last one. */
  lemma EntriesSnoc(track: seq<TrackPoint>, proj: seq<Option<Point>>, confs: seq<real>, picks: seq<nat>, i: nat)
    requires Lockstep(track, proj, confs)
    requires forall j :: 0 <= j < |picks| ==> picks[j] < |track| && proj[picks[j]].Some?
    requires i < |track| && proj[i].Some?
    ensures Entries(track, proj, confs, picks + [i])
      == Entries(track, proj, confs, picks) + [Bounce(track[i].frame, proj[i].value.x, proj[i].value.y, confs[i])]
    ensures LastFrame(track, picks + [i]) == track[i].frame
  {
  }

  /** The accepted indices of a whole track. */
  function AllPicked(track: seq<TrackPoint>, proj: seq<Option<Point>>, confs: seq<real>, minGap: int)
    : seq<nat>
    requires Lockstep(track, proj, confs)
  {
    if |track| < 3 then [] else Picked(track, proj, confs, minGap, |track| - 1)
  }

  /** What `find_bounces` returns. */
  function Bounces(track: seq<TrackPoint>, fps: real, proj: seq<Option<Point>>, confs: seq<real>, minGapS: real)
    : seq<Bounce>
    requires Lockstep(track, proj, confs)
  {
    Entries(track, proj, confs, AllPicked(track, proj, confs, MinGapFrames(minGapS, fps)))
  }

  /** `find_bounces(track, fps, proj_pts, confs, min_gap_s)`. */
  method FindBounces(track: seq<TrackPoint>, fps: real, projPts: seq<Option<Point>>, confs: seq<real>, minGapS: real)
    returns (bounces: seq<Bounce>)
    requires Lockstep(track, projPts, confs)
    ensures bounces == Bounces(track, fps, projPts, confs, minGapS)
    ensures |track| < 3 ==> bounces == []
  {
    bounces := [];
    if |track| < 3 {
      return;
    }
    var lastBounceFrame := NO_BOUNCE_YET;
    var minGap := MinGapFrames(minGapS, fps);
    ghost var picks: seq<nat> := [];
    for i := 1 to |track| - 1
      invariant picks == Picked(track, projPts, confs, minGap, i)
      invariant bounces == Entries(track, projPts, confs, picks)
      invariant lastBounceFrame == LastFrame(track, picks)
    {
      if track[i - 1].y < track[i].y && track[i].y > track[i + 1].y {
        if confs[i] < MIN_CONF {
          PickedSkip(track, projPts, confs, minGap, i + 1);
          continue;
        }
        var xyM := projPts[i];
        if !(xyM.Some? && InsideTable(xyM.value, BOUNCE_MARGIN)) {
          PickedSkip(track, projPts, confs, minGap, i + 1);
          continue;
        }
        if track[i].frame - lastBounceFrame < minGap {
          PickedSkip(track, projPts, confs, minGap, i + 1);
          continue;
        }
        PickedTake(track, projPts, confs, minGap, i + 1);
        EntriesSnoc(track, projPts, confs, picks, i);
        bounces := bounces + [Bounce(track[i].frame, xyM.value.x, xyM.value.y, confs[i])];
        lastBounceFrame := track[i].frame;
        picks := picks + [i];
      } else {
        PickedSkip(track, projPts, confs, minGap, i + 1);
      }
    }
  }

  // ---------------------------------------------------------------- properties of the scan

  predicate StrictlyIncreasing(p: seq<int>) {
    forall j1, j2 :: 0 <= j1 < j2 < |p| ==> p[j1] < p[j2]
  }

  /** One step of the scan: index k - 1 is appended or not. */
  lemma PickedStep(track: seq<TrackPoint>, proj: seq<Option<Point>>, confs: seq<real>, minGap: int, k: nat)
    requires Lockstep(track, proj, confs) && 1 < k <= |track|
    ensures var prev := Picked(track, proj, confs, minGap, k - 1);
      var i := k - 1;
      Picked(track, proj, confs, minGap, k)
        == if IsCandidate(track, proj, confs, i) && track[i].frame - LastFrame(track, prev) >= minGap
           then prev + [i] else prev
  {
  }

  /** A step that rejects index k - 1 leaves the accepted indices as they were. */
  lemma PickedSkip(track: seq<TrackPoint>, proj: seq<Option<Point>>, confs: seq<real>, minGap: int, k: nat)
    requires Lockstep(track, proj, confs) && 1 < k <= |track|
    requires !IsCandidate(track, proj, confs, k - 1)
      || track[k - 1].frame - LastFrame(track, Picked(track, proj, confs, minGap, k - 1)) < minGap
    ensures Picked(track, proj, confs, minGap, k) == Picked(track, proj, confs, minGap, k - 1)
  {
  }

  /** A step that accepts index k - 1 appends it. */
  lemma PickedTake(track: seq<TrackPoint>, proj: seq<Option<Point>>, confs: seq<real>, minGap: int, k: nat)
    requires Lockstep(track, proj, confs) && 1 < k <= |track|
    requires IsCandidate(track, proj, confs, k - 1)
    requires track[k - 1].frame - LastFrame(track, Picked(track, proj, confs, minGap, k - 1)) >= minGap
    ensures Picked(track, proj, confs, minGap, k) == Picked(track, proj, confs, minGap, k - 1) + [k - 1]
  {
  }

  /** A longer scan only appends to what a shorter one accepted. */
  lemma {:induction false} PickedExtends(track: seq<TrackPoint>, proj: seq<Option<Point>>, confs: seq<real>,
                                         minGap: int, k1: nat, k2: nat)
    requires Lockstep(track, proj, confs) && k1 <= k2 <= |track|
    ensures Picked(track, proj, confs, minGap, k1) <= Picked(track, proj, confs, minGap, k2)
    decreases k2
  {
    if k1 < k2 {
      PickedExtends(track, proj, confs, minGap, k1, k2 - 1);
    }
  }

  /** Accepted indices strictly increase: the output follows track order. */
  lemma {:induction false} PickedIncreasing(track: seq<TrackPoint>, proj: seq<Option<Point>>, confs: seq<real>,
                                            minGap: int, k: nat)
    requires Lockstep(track, proj, confs) && k <= |track|
    ensures StrictlyIncreasing(Picked(track, proj, confs, minGap, k))
  {
    if k > 1 {
      PickedIncreasing(track, proj, confs, minGap, k - 1);
      PickedStep(track, proj, confs, minGap, k);
    }
  }

  /** Two neighbouring track entries are never both reported: both cannot be strict maxima. */
  lemma PickedNotAdjacent(track: seq<TrackPoint>, proj: seq<Option<Point>>, confs: seq<real>, minGap: int, k: nat)
    requires Lockstep(track, proj, confs) && k <= |track|
    ensures var p := Picked(track, proj, confs, minGap, k);
      forall j :: 0 <= j < |p| - 1 ==> p[j] + 1 < p[j + 1]
  {
    var p := Picked(track, proj, confs, minGap, k);
    PickedIncreasing(track, proj, confs, minGap, k);
    forall j | 0 <= j < |p| - 1
      ensures p[j] + 1 < p[j + 1]
    {
      assert p[j] < p[j + 1];
    }
  }

  /** Consecutive accepted entries are at least `minGap` frames apart. */
  lemma {:induction false} PickedDebounced(track: seq<TrackPoint>, proj: seq<Option<Point>>, confs: seq<real>,
                                           minGap: int, k: nat)
    requires Lockstep(track, proj, confs) && k <= |track|
    ensures var p := Picked(track, proj, confs, minGap, k);
      forall j :: 0 <= j < |p| - 1 ==> track[p[j + 1]].frame - track[p[j]].frame >= minGap
  {
    if k > 1 {
      PickedDebounced(track, proj, confs, minGap, k - 1);
      PickedStep(track, proj, confs, minGap, k);
      var prev := Picked(track, proj, confs, minGap, k - 1);
      var p := Picked(track, proj, confs, minGap, k);
      if p != prev {
        assert p == prev + [k - 1];
        forall j | 0 <= j < |p| - 1
          ensures track[p[j + 1]].frame - track[p[j]].frame >= minGap
        {
          if j < |prev| - 1 {
            assert p[j] == prev[j] && p[j + 1] == prev[j + 1];
          }
        }
      }
    }
  }

  /** With no candidate below k, nothing is accepted below k. */
  lemma {:induction false} PickedNoneBefore(track: seq<TrackPoint>, proj: seq<Option<Point>>, confs: seq<real>,
                                            minGap: int, k: nat)
    requires Lockstep(track, proj, confs) && k <= |track|
    requires forall m :: 1 <= m < k ==> !IsCandidate(track, proj, confs, m)
    ensures Picked(track, proj, confs, minGap, k) == []
  {
    if k > 1 {
      PickedNoneBefore(track, proj, confs, minGap, k - 1);
    }
  }

  /**
   * The first candidate is always reported when the sentinel lies at least `minGap` frames
   * before it (for instance, any frame >= 0 with a gap below 10^9 frames).
   */
  lemma FirstCandidateReported(track: seq<TrackPoint>, proj: seq<Option<Point>>, confs: seq<real>, minGap: int, i: nat)
    requires Lockstep(track, proj, confs) && IsCandidate(track, proj, confs, i)
    requires forall m :: 1 <= m < i ==> !IsCandidate(track, proj, confs, m)
    requires track[i].frame - NO_BOUNCE_YET >= minGap
    ensures var p := AllPicked(track, proj, confs, minGap); |p| > 0 && p[0] == i
  {
    PickedNoneBefore(track, proj, confs, minGap, i);
    assert Picked(track, proj, confs, minGap, i + 1) == [i];
    PickedExtends(track, proj, confs, minGap, i + 1, |track| - 1);
  }

  /**
   * Every candidate is either reported, or suppressed by a report at an earlier index whose
   * frame lies less than `minGap` frames before it.
   */
  lemma CandidateReportedOrDebounced(track: seq<TrackPoint>, proj: seq<Option<Point>>, confs: seq<real>,
                                     minGap: int, i: nat)
    requires Lockstep(track, proj, confs) && IsCandidate(track, proj, confs, i)
    requires track[i].frame - NO_BOUNCE_YET >= minGap
    ensures var p := AllPicked(track, proj, confs, minGap);
      i in p || exists j :: 0 <= j < |p| && p[j] < i && track[i].frame - track[p[j]].frame < minGap
  {
    var prev := Picked(track, proj, confs, minGap, i);
    var next := Picked(track, proj, confs, minGap, i + 1);
    var p := AllPicked(track, proj, confs, minGap);
    PickedExtends(track, proj, confs, minGap, i + 1, |track| - 1);
    assert next <= p;
    if track[i].frame - LastFrame(track, prev) >= minGap {
      PickedTake(track, proj, confs, minGap, i + 1);
      AppendedStays(prev, i, p);
    } else {
      PickedSkip(track, proj, confs, minGap, i + 1);
      LastPickSuppresses(track, prev, p, i, minGap);
    }
  }

  /** An index appended to a prefix of p is in p. */
  lemma AppendedStays(prev: seq<nat>, i: nat, p: seq<nat>)
    requires prev + [i] <= p
    ensures i in p
  {
    assert p[|prev|] == (prev + [i])[|prev|];
  }

  /** When the last accepted frame is within the gap, some accepted index before i suppresses i. */
  lemma LastPickSuppresses(track: seq<TrackPoint>, prev: seq<nat>, p: seq<nat>, i: nat, minGap: int)
    requires prev <= p && i < |track|
    requires forall j :: 0 <= j < |prev| ==> prev[j] < i
    requires track[i].frame - LastFrame(track, prev) < minGap
    requires track[i].frame - NO_BOUNCE_YET >= minGap
    ensures exists j :: 0 <= j < |p| && p[j] < i && track[i].frame - track[p[j]].frame < minGap
  {
    var j := |prev| - 1;
    assert p[j] == prev[j];
  }

  // ---------------------------------------------------------------- properties of the output

  /**
   * The output is an in-order subsequence of the track: there is a strictly increasing run of
   * interior, non-adjacent indices, each a gated strict local maximum, whose entries are the output.
   */
  lemma BouncesAreTrackEntries(track: seq<TrackPoint>, fps: real, proj: seq<Option<Point>>, confs: seq<real>, minGapS: real)
    requires Lockstep(track, proj, confs)
    ensures var bs := Bounces(track, fps, proj, confs, minGapS);
      exists p: seq<nat> ::
        && |p| == |bs|
        && StrictlyIncreasing(p)
        && (forall j :: 0 <= j < |p| - 1 ==> p[j] + 1 < p[j + 1])
        && (forall j :: 0 <= j < |p| ==> IsCandidate(track, proj, confs, p[j]) && bs[j] == Entry(track, proj, confs, p[j]))
  {
    var minGap := MinGapFrames(minGapS, fps);
    var p := AllPicked(track, proj, confs, minGap);
    if |track| >= 3 {
      PickedIncreasing(track, proj, confs, minGap, |track| - 1);
      PickedNotAdjacent(track, proj, confs, minGap, |track| - 1);
    }
    assert |p| == |Bounces(track, fps, proj, confs, minGapS)|;
  }

  /** Every reported frame is the frame of some track entry. */
  lemma BouncesFromTrack(track: seq<TrackPoint>, fps: real, proj: seq<Option<Point>>, confs: seq<real>, minGapS: real)
    requires Lockstep(track, proj, confs)
    ensures forall b :: b in Bounces(track, fps, proj, confs, minGapS) ==>
      exists i :: 0 <= i < |track| && b.frame == track[i].frame
  {
    var bs := Bounces(track, fps, proj, confs, minGapS);
    var p := AllPicked(track, proj, confs, MinGapFrames(minGapS, fps));
    forall b | b in bs
      ensures exists i :: 0 <= i < |track| && b.frame == track[i].frame
    {
      var j :| 0 <= j < |bs| && bs[j] == b;
      assert b.frame == track[p[j]].frame;
    }
  }

  /** Every reported bounce has confidence >= 0.15 and lies in [-0.05, 2.79] x [-0.05, 1.575]. */
  lemma BouncesGated(track: seq<TrackPoint>, fps: real, proj: seq<Option<Point>>, confs: seq<real>, minGapS: real)
    requires Lockstep(track, proj, confs)
    ensures forall b :: b in Bounces(track, fps, proj, confs, minGapS) ==>
      && b.conf >= MIN_CONF
      && -0.05 <= b.x <= 2.79 && -0.05 <= b.y <= 1.575
  {
    var bs := Bounces(track, fps, proj, confs, minGapS);
    var p := AllPicked(track, proj, confs, MinGapFrames(minGapS, fps));
    forall b | b in bs
      ensures b.conf >= MIN_CONF && -0.05 <= b.x <= 2.79 && -0.05 <= b.y <= 1.575
    {
      var j :| 0 <= j < |bs| && bs[j] == b;
      assert IsCandidate(track, proj, confs, p[j]);
    }
  }

  /** Consecutive reports are at least `int(min_gap_s * fps)` frames apart. */
  lemma BouncesDebounced(track: seq<TrackPoint>, fps: real, proj: seq<Option<Point>>, confs: seq<real>, minGapS: real)
    requires Lockstep(track, proj, confs)
    ensures var bs := Bounces(track, fps, proj, confs, minGapS);
      forall j :: 0 <= j < |bs| - 1 ==> bs[j + 1].frame - bs[j].frame >= MinGapFrames(minGapS, fps)
  {
    var minGap := MinGapFrames(minGapS, fps);
    var bs := Bounces(track, fps, proj, confs, minGapS);
    var p := AllPicked(track, proj, confs, minGap);
    if |track| >= 3 {
      PickedDebounced(track, proj, confs, minGap, |track| - 1);
      assert p == Picked(track, proj, confs, minGap, |track| - 1);
    }
    forall j | 0 <= j < |bs| - 1
      ensures bs[j + 1].frame - bs[j].frame >= minGap
    {
      assert track[p[j + 1]].frame - track[p[j]].frame >= minGap;
      assert bs[j] == Entry(track, proj, confs, p[j]) && bs[j + 1] == Entry(track, proj, confs, p[j + 1]);
    }
  }

  /** With strictly increasing track frames, the reported frames strictly increase too. */
  lemma BouncesInFrameOrder(track: seq<TrackPoint>, fps: real, proj: seq<Option<Point>>, confs: seq<real>, minGapS: real)
    requires Lockstep(track, proj, confs)
    requires forall j1, j2 :: 0 <= j1 < j2 < |track| ==> track[j1].frame < track[j2].frame
    ensures var bs := Bounces(track, fps, proj, confs, minGapS);
      forall j1, j2 :: 0 <= j1 < j2 < |bs| ==> bs[j1].frame < bs[j2].frame
  {
    var minGap := MinGapFrames(minGapS, fps);
    var bs := Bounces(track, fps, proj, confs, minGapS);
    var p := AllPicked(track, proj, confs, minGap);
    if |track| >= 3 {
      PickedIncreasing(track, proj, confs, minGap, |track| - 1);
    }
    forall j1, j2 | 0 <= j1 < j2 < |bs|
      ensures bs[j1].frame < bs[j2].frame
    {
      assert p[j1] < p[j2];
      assert bs[j1] == Entry(track, proj, confs, p[j1]) && bs[j2] == Entry(track, proj, confs, p[j2]);
    }
  }
}

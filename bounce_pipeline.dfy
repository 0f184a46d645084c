/**
 * The main loop of the bounce script around `find_bounces`: the best detection of each
 * decoded frame, the four lists accumulated in lockstep, and the rows written out.
 * Decoding and the detector are inputs: a video is the sequence of detector results of its
 * frames, in decoding order.
 */
module BouncePipeline {
  import opened Wrappers
  import opened Numbers
  import opened TableGeometry
  import opened BounceDetection

  /** One detector box: corners in pixels and confidence. */
  datatype Detection = Detection(x1: real, y1: real, x2: real, y2: real, conf: real)

  /** One detector result; `boxes` is absent when the detector attached none. */
  datatype Prediction = Prediction(boxes: Option<seq<Detection>>)

  /** The ball chosen for a frame: box centre in image pixels and its confidence. */
  datatype Observation = Observation(center: Point, conf: real)

  /** One row of the bounce table: frame, time in seconds, table position, confidence. */
  datatype BounceRow = BounceRow(frame: int, time: real, x: real, y: real, conf: real)

  /** Frame rate used when the container reports none. */
  const FALLBACK_FPS: real := 30.0

  const NO_DETECTIONS: string := "No ball detections collected. Check your weights/conf/source."

  predicate HasBoxes(r: Prediction) {
    r.boxes.Some? && |r.boxes.value| > 0
  }

  /** `np.argmax` over the confidences: the first index holding the maximum. */
  function ArgMaxConf(ds: seq<Detection>): (i: nat)
    requires |ds| > 0
    ensures i < |ds|
    ensures forall j :: 0 <= j < |ds| ==> ds[j].conf <= ds[i].conf
    ensures forall j :: 0 <= j < i ==> ds[j].conf < ds[i].conf
  {
    if |ds| == 1 then 0
    else
      var k := ArgMaxConf(ds[..|ds| - 1]);
      if ds[|ds| - 1].conf > ds[k].conf then |ds| - 1 else k
  }

  /**
   * Centre of a box after `map(int, ...)` on its corners: within one pixel of the exact
   * midpoint on each axis, and equal to it when the corners are whole numbers.
   */
  function BoxCenter(d: Detection): (c: Point)
    ensures -1.0 < c.x - (d.x1 + d.x2) / 2.0 < 1.0 && -1.0 < c.y - (d.y1 + d.y2) / 2.0 < 1.0
    ensures d.x1 == Trunc(d.x1) as real && d.x2 == Trunc(d.x2) as real ==> c.x == (d.x1 + d.x2) / 2.0
    ensures d.y1 == Trunc(d.y1) as real && d.y2 == Trunc(d.y2) as real ==> c.y == (d.y1 + d.y2) / 2.0
  {
    Point((Trunc(d.x1) + Trunc(d.x2)) as real / 2.0, (Trunc(d.y1) + Trunc(d.y2)) as real / 2.0)
  }

  function ObservationOf(ds: seq<Detection>): Observation
    requires |ds| > 0
  {
    var j := ArgMaxConf(ds);
    Observation(BoxCenter(ds[j]), ds[j].conf)
  }

  /** The ball of one frame: from the first result that has boxes; none when no result has any. */
  function BestOf(rs: seq<Prediction>): (best: Option<Observation>)
    ensures best.Some? <==> exists k :: 0 <= k < |rs| && HasBoxes(rs[k])
    decreases |rs|
  {
    if rs == [] then None
    else if HasBoxes(rs[0]) then Some(ObservationOf(rs[0].boxes.value))
    else BestOf(rs[1..])
  }

  /** The first result with boxes decides; results after it are never looked at. */
  lemma {:induction false} BestOfFirst(rs: seq<Prediction>, k: nat)
    requires k < |rs| && HasBoxes(rs[k])
    requires forall m :: 0 <= m < k ==> !HasBoxes(rs[m])
    ensures BestOf(rs) == Some(ObservationOf(rs[k].boxes.value))
    decreases k
  {
    if k > 0 {
      assert !HasBoxes(rs[0]);
      BestOfFirst(rs[1..], k - 1);
    }
  }

  /** Without any box there is no ball for the frame. */
  lemma {:induction false} BestOfNone(rs: seq<Prediction>)
    requires forall m :: 0 <= m < |rs| ==> !HasBoxes(rs[m])
    ensures BestOf(rs) == None
    decreases |rs|
  {
    if rs != [] {
      BestOfNone(rs[1..]);
    }
  }

  /** The per-frame loop over the detector results, stopping at the first one with boxes. */
  method SelectBest(results: seq<Prediction>) returns (best: Option<Observation>)
    ensures best == BestOf(results)
  {
    best := None;
    var i := 0;
    while i < |results|
      invariant 0 <= i <= |results|
      invariant BestOf(results) == BestOf(results[i..])
      invariant best == None
    {
      var r := results[i];
      assert results[i..][1..] == results[i + 1..];
      if r.boxes.None? || |r.boxes.value| == 0 {
        i := i + 1;
        continue;
      }
      var b := r.boxes.value;
      var j := ArgMaxConf(b);
      var c := b[j].conf;
      best := Some(Observation(BoxCenter(b[j]), c));
      return;
    }
  }

  // ---------------------------------------------------------------- accumulation

  /** Indices of the frames below n that have a ball, in decoding order. */
  function DetectedBelow(video: seq<seq<Prediction>>, n: nat): (fs: seq<nat>)
    requires n <= |video|
    ensures forall j :: 0 <= j < |fs| ==> fs[j] < n && BestOf(video[fs[j]]).Some?
  {
    if n == 0 then []
    else
      var prev := DetectedBelow(video, n - 1);
      if BestOf(video[n - 1]).Some? then prev + [n - 1] else prev
  }

  function Centers(video: seq<seq<Prediction>>, fs: seq<nat>): (ps: seq<Point>)
    requires forall j :: 0 <= j < |fs| ==> fs[j] < |video| && BestOf(video[fs[j]]).Some?
    ensures |ps| == |fs|
  {
    seq(|fs|, j requires 0 <= j < |fs| => BestOf(video[fs[j]]).value.center)
  }

  function Confidences(video: seq<seq<Prediction>>, fs: seq<nat>): (cs: seq<real>)
    requires forall j :: 0 <= j < |fs| ==> fs[j] < |video| && BestOf(video[fs[j]]).Some?
    ensures |cs| == |fs|
  {
    seq(|fs|, j requires 0 <= j < |fs| => BestOf(video[fs[j]]).value.conf)
  }

  function Projected(h: Homography, ps: seq<Point>): (qs: seq<Option<Point>>)
    ensures |qs| == |ps|
  {
    seq(|ps|, j requires 0 <= j < |ps| => Project(h, ps[j]))
  }

  /** A frame below n is in the list exactly when it has a ball. */
  lemma {:induction false} DetectedExactly(video: seq<seq<Prediction>>, n: nat, f: nat)
    requires n <= |video| && f < n
    ensures f in DetectedBelow(video, n) <==> BestOf(video[f]).Some?
  {
    var prev := DetectedBelow(video, n - 1);
    if f < n - 1 {
      DetectedExactly(video, n - 1, f);
    }
  }

  /** The frame list strictly increases. */
  lemma {:induction false} DetectedIncreasing(video: seq<seq<Prediction>>, n: nat)
    requires n <= |video|
    ensures StrictlyIncreasing(DetectedBelow(video, n))
  {
    if n > 0 {
      DetectedIncreasing(video, n - 1);
    }
  }

  /** Appending a frame with a ball appends its centre, confidence and projection. */
  lemma AccumulateStep(video: seq<seq<Prediction>>, h: Homography, fs: seq<nat>, f: nat)
    requires f < |video| && BestOf(video[f]).Some?
    requires forall j :: 0 <= j < |fs| ==> fs[j] < |video| && BestOf(video[fs[j]]).Some?
    ensures var obs := BestOf(video[f]).value;
      && Centers(video, fs + [f]) == Centers(video, fs) + [obs.center]
      && Confidences(video, fs + [f]) == Confidences(video, fs) + [obs.conf]
      && Projected(h, Centers(video, fs) + [obs.center]) == Projected(h, Centers(video, fs)) + [Project(h, obs.center)]
  {
  }

  /**
   * The accumulator loop: one entry in each of the four lists for every decoded frame that
   * has a ball, and none for the others; `frame_idx` counts decoded frames.
   */
  method Accumulate(video: seq<seq<Prediction>>, h: Homography)
    returns (frames: seq<nat>, imgPts: seq<Point>, projPts: seq<Option<Point>>, confs: seq<real>)
    ensures frames == DetectedBelow(video, |video|)
    ensures imgPts == Centers(video, frames)
    ensures confs == Confidences(video, frames)
    ensures projPts == Projected(h, imgPts)
  {
    frames, imgPts, projPts, confs := [], [], [], [];
    var frameIdx := 0;
    while frameIdx < |video|
      invariant frameIdx <= |video|
      invariant frames == DetectedBelow(video, frameIdx)
      invariant imgPts == Centers(video, frames)
      invariant confs == Confidences(video, frames)
      invariant projPts == Projected(h, imgPts)
    {
      var found := SelectBest(video[frameIdx]);
      if found.Some? {
        AccumulateStep(video, h, frames, frameIdx);
        frames := frames + [frameIdx];
        imgPts := imgPts + [found.value.center];
        confs := confs + [found.value.conf];
        projPts := projPts + [Project(h, found.value.center)];
      }
      frameIdx := frameIdx + 1;
    }
  }

  // ---------------------------------------------------------------- analysis

  /** `cap.get(CAP_PROP_FPS) or 30.0`. */
  function EffectiveFps(capFps: real): (fps: real)
    ensures fps != 0.0
    ensures capFps != 0.0 ==> fps == capFps
  {
    if capFps == 0.0 then FALLBACK_FPS else capFps
  }

  /** Row time: frame over the frame rate, with 30 standing in for a non-positive rate. */
  function BounceTime(frame: int, fps: real): (t: real)
    ensures t * (if fps > 0.0 then fps else FALLBACK_FPS) == frame as real
  {
    frame as real / (if fps > 0.0 then fps else FALLBACK_FPS)
  }

  function TrackOf(frames: seq<nat>, pts: seq<Point>): (t: seq<TrackPoint>)
    requires |frames| == |pts|
    ensures |t| == |frames|
  {
    seq(|frames|, j requires 0 <= j < |frames| => TrackPoint(frames[j], pts[j].x, pts[j].y))
  }

  /** The rows written for the bounces: same frame, position and confidence, plus the time. */
  function RowsOf(bs: seq<Bounce>, fps: real): (rows: seq<BounceRow>)
    ensures |rows| == |bs|
    ensures forall j :: 0 <= j < |bs| ==>
      && rows[j].frame == bs[j].frame && rows[j].x == bs[j].x && rows[j].y == bs[j].y && rows[j].conf == bs[j].conf
      && rows[j].time * (if fps > 0.0 then fps else FALLBACK_FPS) == rows[j].frame as real
  {
    seq(|bs|, j requires 0 <= j < |bs| => BounceRow(bs[j].frame, BounceTime(bs[j].frame, fps), bs[j].x, bs[j].y, bs[j].conf))
  }

  /** The bounces the analysis of a video reports, before they become rows. */
  function AnalysisBounces(video: seq<seq<Prediction>>, h: Homography, capFps: real): seq<Bounce> {
    var frames := DetectedBelow(video, |video|);
    var pts := Centers(video, frames);
    Bounces(TrackOf(frames, pts), EffectiveFps(capFps), Projected(h, pts), Confidences(video, frames), DEFAULT_MIN_GAP_S)
  }

  /** The whole analysis of a video as values: the error, or the bounce rows. */
  function Analysis(video: seq<seq<Prediction>>, h: Homography, capFps: real): Result<seq<BounceRow>, string> {
    var frames := DetectedBelow(video, |video|);
    if frames == [] then Err(NO_DETECTIONS)
    else Ok(RowsOf(AnalysisBounces(video, h, capFps), EffectiveFps(capFps)))
  }

  /** Accumulate, stop when nothing was detected, find the bounces, compute the row times. */
  method Analyse(video: seq<seq<Prediction>>, h: Homography, capFps: real)
    returns (res: Result<seq<BounceRow>, string>)
    ensures res == Analysis(video, h, capFps)
  {
    var fps := EffectiveFps(capFps);
    var frames, imgPts, projPts, confs := Accumulate(video, h);
    if |imgPts| == 0 {
      return Err(NO_DETECTIONS);
    }
    var track := TrackOf(frames, imgPts);
    var bounces := FindBounces(track, fps, projPts, confs, DEFAULT_MIN_GAP_S);
    res := Ok(RowsOf(bounces, fps));
  }

  /** The analysis fails exactly when no decoded frame has a ball. */
  lemma AnalysisFailsIffNoBall(video: seq<seq<Prediction>>, h: Homography, capFps: real)
    ensures Analysis(video, h, capFps).Err? <==> forall f :: 0 <= f < |video| ==> BestOf(video[f]).None?
  {
    var frames := DetectedBelow(video, |video|);
    if frames == [] {
      forall f | 0 <= f < |video|
        ensures BestOf(video[f]).None?
      {
        DetectedExactly(video, |video|, f);
      }
    } else {
      assert BestOf(video[frames[0]]).Some?;
    }
  }

  /** Every reported bounce is at a decoded frame that has a ball. */
  lemma AnalysisBouncesFromBall(video: seq<seq<Prediction>>, h: Homography, capFps: real)
    ensures forall b :: b in AnalysisBounces(video, h, capFps) ==> 0 <= b.frame < |video| && BestOf(video[b.frame]).Some?
  {
    var frames := DetectedBelow(video, |video|);
    var pts := Centers(video, frames);
    var track := TrackOf(frames, pts);
    BouncesFromTrack(track, EffectiveFps(capFps), Projected(h, pts), Confidences(video, frames), DEFAULT_MIN_GAP_S);
    forall b | b in AnalysisBounces(video, h, capFps)
      ensures 0 <= b.frame < |video| && BestOf(video[b.frame]).Some?
    {
      var i :| 0 <= i < |track| && b.frame == track[i].frame;
      assert track[i].frame == frames[i];
    }
  }

  /** Every row is the ball of a decoded frame and passes the confidence and table gates. */
  lemma AnalysisRowsGated(video: seq<seq<Prediction>>, h: Homography, capFps: real)
    requires Analysis(video, h, capFps).Ok?
    ensures forall r :: r in Analysis(video, h, capFps).value ==>
      && 0 <= r.frame < |video| && BestOf(video[r.frame]).Some?
      && r.conf >= MIN_CONF && -0.05 <= r.x <= 2.79 && -0.05 <= r.y <= 1.575
  {
    var frames := DetectedBelow(video, |video|);
    var pts := Centers(video, frames);
    var bs := AnalysisBounces(video, h, capFps);
    assert Analysis(video, h, capFps).value == RowsOf(bs, EffectiveFps(capFps));
    AnalysisBouncesFromBall(video, h, capFps);
    BouncesGated(TrackOf(frames, pts), EffectiveFps(capFps), Projected(h, pts), Confidences(video, frames), DEFAULT_MIN_GAP_S);
    RowsGated(bs, EffectiveFps(capFps), video);
  }

  /** Rows carry their bounces' frames, positions and confidences, so they pass the same gates. */
  lemma RowsGated(bs: seq<Bounce>, fps: real, video: seq<seq<Prediction>>)
    requires forall b :: b in bs ==>
      && 0 <= b.frame < |video| && BestOf(video[b.frame]).Some?
      && b.conf >= MIN_CONF && -0.05 <= b.x <= 2.79 && -0.05 <= b.y <= 1.575
    ensures forall r :: r in RowsOf(bs, fps) ==>
      && 0 <= r.frame < |video| && BestOf(video[r.frame]).Some?
      && r.conf >= MIN_CONF && -0.05 <= r.x <= 2.79 && -0.05 <= r.y <= 1.575
  {
    var rows := RowsOf(bs, fps);
    forall r | r in rows
      ensures 0 <= r.frame < |video| && BestOf(video[r.frame]).Some?
      ensures r.conf >= MIN_CONF && -0.05 <= r.x <= 2.79 && -0.05 <= r.y <= 1.575
    {
      var j :| 0 <= j < |rows| && rows[j] == r;
      var b := bs[j];
      assert b in bs;
      assert r.frame == b.frame && r.x == b.x && r.y == b.y && r.conf == b.conf;
    }
  }

  /** Row frames strictly increase, and consecutive rows are at least `int(0.25 * fps)` frames apart. */
  lemma AnalysisRowsOrdered(video: seq<seq<Prediction>>, h: Homography, capFps: real)
    requires Analysis(video, h, capFps).Ok?
    ensures var rows := Analysis(video, h, capFps).value;
      && (forall j1, j2 :: 0 <= j1 < j2 < |rows| ==> rows[j1].frame < rows[j2].frame)
      && (forall j :: 0 <= j < |rows| - 1 ==> rows[j + 1].frame - rows[j].frame >= MinGapFrames(DEFAULT_MIN_GAP_S, EffectiveFps(capFps)))
  {
    var frames := DetectedBelow(video, |video|);
    var pts := Centers(video, frames);
    var fps := EffectiveFps(capFps);
    var track := TrackOf(frames, pts);
    var proj := Projected(h, pts);
    var confs := Confidences(video, frames);
    DetectedIncreasing(video, |video|);
    BouncesDebounced(track, fps, proj, confs, DEFAULT_MIN_GAP_S);
    BouncesInFrameOrder(track, fps, proj, confs, DEFAULT_MIN_GAP_S);
  }
}

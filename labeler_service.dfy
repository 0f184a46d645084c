/**
 * Pure logic of the labeler web service: task ids, the click-to-label normalisation, the
 * upload extension check and the frame extraction loop. Files, HTTP and the clock are
 * parameters or outputs.
 */
module LabelerService {
  import opened Wrappers
  import opened Numbers
  import opened Strings
  import opened Stamps
  import opened Paths
  import opened Slug

  const HTTP_BAD_REQUEST: int := 400
  const HTTP_NOT_FOUND: int := 404

  // ---------------------------------------------------------------- task ids

  /**
   * `new_task_id(hint)` for a given day and `int(time.time())`. The hint's slug is never
   * empty, so the `task-` fallback is never taken.
   */
  function NewTaskId(hint: string, today: Date, now: int): (id: string)
    ensures IsSlug(Slugify(hint, DEFAULT_SLUG))
    ensures id == FormatDate(today) + "/" + (Slugify(hint, DEFAULT_SLUG) + "-" + IntToDecimal(now))
  {
    var slug := Slugify(hint, DEFAULT_SLUG);
    SlugifyNeverEmpty(hint);
    FormatDate(today) + "/" + (if slug != [] then slug + "-" + IntToDecimal(now) else "task-" + IntToDecimal(now))
  }

  /** `<slug>-<seconds>` holds no '/'. */
  lemma NoSlashInRest(slug: string, now: int)
    requires AllSlugChars(slug)
    ensures '/' !in slug + "-" + IntToDecimal(now)
  {
    var d := IntToDecimal(now);
    var rest := slug + "-" + d;
    NoSlashInDecimal(now);
    forall j | 0 <= j < |rest|
      ensures rest[j] != '/'
    {
      if j < |slug| {
        assert rest[j] == slug[j] && IsSlugChar(slug[j]);
      } else if j > |slug| {
        assert rest[j] == d[j - |slug| - 1];
      }
    }
  }

  /** The id splits at '/' into exactly two parts: the date and `<slug>-<seconds>`. */
  lemma TaskIdShape(hint: string, today: Date, now: int)
    ensures var slug := Slugify(hint, DEFAULT_SLUG);
      && IsSlug(slug)
      && Split(NewTaskId(hint, today, now), '/') == [FormatDate(today), slug + "-" + IntToDecimal(now)]
  {
    var slug := Slugify(hint, DEFAULT_SLUG);
    var date := FormatDate(today);
    var rest := slug + "-" + IntToDecimal(now);
    var id := NewTaskId(hint, today, now);
    assert id == date + ['/'] + rest;
    NoSlashInRest(slug, now);
    SplitAt(date, '/', rest);
    SplitWhole(rest, '/');
  }

  // ---------------------------------------------------------------- click labels

  /** A label line written for one click: class, centre and size as fractions of the image. */
  datatype ClickLabel = ClickLabel(cls: int, x: real, y: real, w: real, h: real)

  /** Smallest box side the service writes, in pixels. */
  const MIN_CLICK_SIDE: real := 2.0

  /** `min(max(v, 0.0), 1.0)`. */
  function Clamp01(v: real): (r: real)
    ensures 0.0 <= r <= 1.0
    ensures 0.0 <= v <= 1.0 ==> r == v
    ensures v < 0.0 ==> r == 0.0
    ensures v > 1.0 ==> r == 1.0
  {
    MinR(MaxR(v, 0.0), 1.0)
  }

  /** The normalisation of `api_task_save_label` for an image of w by h pixels. */
  function NormaliseClick(cx: real, cy: real, box: real, w: int, h: int): (l: ClickLabel)
    requires w >= 1 && h >= 1
    ensures l.cls == 0
    ensures 0.0 <= l.x <= 1.0 && 0.0 <= l.y <= 1.0 && 0.0 <= l.w <= 1.0 && 0.0 <= l.h <= 1.0
  {
    var side := MaxR(MIN_CLICK_SIDE, box);
    ClickLabel(0, Clamp01(cx / w as real), Clamp01(cy / h as real), Clamp01(side / w as real), Clamp01(side / h as real))
  }

  /** A value between 0 and n, scaled down by n, lies in [0, 1] and scales back exactly. */
  lemma UnitFraction(a: real, n: real)
    requires n >= 1.0 && 0.0 <= a <= n
    ensures 0.0 <= a / n <= 1.0 && (a / n) * n == a
  {
    assert (a / n) * n == a;
    assert a / n <= n / n;
  }

  /** Along one axis of n pixels: a coordinate inside is kept exactly, a side is capped at n. */
  lemma ClickAxis(c: real, side: real, n: real)
    requires n >= 1.0 && 0.0 <= c <= n && side >= 0.0
    ensures Clamp01(c / n) * n == c
    ensures Clamp01(side / n) * n == MinR(side, n)
  {
    UnitFraction(c, n);
    if side <= n {
      UnitFraction(side, n);
    } else {
      assert side / n > n / n;
    }
  }

  lemma ClickRecordedAcross(cx: real, cy: real, box: real, w: int, h: int)
    requires w >= 1 && h >= 1 && 0.0 <= cx <= w as real
    ensures var l := NormaliseClick(cx, cy, box, w, h);
      l.x * w as real == cx && l.w * w as real == MinR(MaxR(MIN_CLICK_SIDE, box), w as real)
  {
    ClickAxis(cx, MaxR(MIN_CLICK_SIDE, box), w as real);
  }

  lemma ClickRecordedDown(cx: real, cy: real, box: real, w: int, h: int)
    requires w >= 1 && h >= 1 && 0.0 <= cy <= h as real
    ensures var l := NormaliseClick(cx, cy, box, w, h);
      l.y * h as real == cy && l.h * h as real == MinR(MaxR(MIN_CLICK_SIDE, box), h as real)
  {
    ClickAxis(cy, MaxR(MIN_CLICK_SIDE, box), h as real);
  }

  /**
   * A click inside the image is recorded exactly, and the square side is the requested one
   * but never below 2 pixels nor above the image side.
   */
  lemma ClickRecorded(cx: real, cy: real, box: real, w: int, h: int)
    requires w >= 1 && h >= 1
    requires 0.0 <= cx <= w as real && 0.0 <= cy <= h as real
    ensures var l := NormaliseClick(cx, cy, box, w, h);
      && l.x * w as real == cx && l.y * h as real == cy
      && l.w * w as real == MinR(MaxR(MIN_CLICK_SIDE, box), w as real)
      && l.h * h as real == MinR(MaxR(MIN_CLICK_SIDE, box), h as real)
  {
    ClickRecordedAcross(cx, cy, box, w, h);
    ClickRecordedDown(cx, cy, box, w, h);
  }

  /** `api_task_save_label`: 404 when the frame does not exist, else the label and its file name. */
  function SaveLabel(frameExists: bool, filename: string, w: int, h: int, cx: real, cy: real, box: real)
    : (r: Result<(string, ClickLabel), int>)
    requires w >= 1 && h >= 1
    ensures r.Err? <==> !frameExists
    ensures r.Err? ==> r.error == HTTP_NOT_FOUND
    ensures r.Ok? ==> r.value.0 == Stem(filename) + ".txt" && r.value.1 == NormaliseClick(cx, cy, box, w, h)
  {
    if !frameExists then Err(HTTP_NOT_FOUND)
    else Ok((Stem(filename) + ".txt", NormaliseClick(cx, cy, box, w, h)))
  }

  // ---------------------------------------------------------------- uploads

  const ALLOWED_VIDEO_EXT: set<string> := {".mp4", ".mov", ".m4v", ".avi", ".mkv"}

  /** `Path(file.filename or "").suffix.lower()` and the allow-list test: the extension, or 400. */
  function CheckUpload(filename: Option<string>): (r: Result<string, int>)
    ensures r.Ok? ==> r.value in ALLOWED_VIDEO_EXT
    ensures r.Err? ==> r.error == HTTP_BAD_REQUEST
  {
    var name := if filename.Some? then filename.value else "";
    var ext := Lower(Suffix(name));
    if ext !in ALLOWED_VIDEO_EXT then Err(HTTP_BAD_REQUEST) else Ok(ext)
  }

  /** `stem.ext` is accepted exactly when the lower-cased `.ext` is on the allow-list. */
  lemma UploadByExtension(stem: string, ext: string)
    requires stem != [] && ext != [] && '/' !in stem && '/' !in ext && '.' !in ext
    ensures CheckUpload(Some(stem + "." + ext)) == if Lower("." + ext) in ALLOWED_VIDEO_EXT then Ok(Lower("." + ext)) else Err(HTTP_BAD_REQUEST)
  {
    SuffixOfDotted(stem, ext);
  }

  /** Example: without a suffix an upload is rejected. */
  lemma EmptyExtensionRejected()
    ensures Lower([]) !in ALLOWED_VIDEO_EXT
  {
    assert Lower([]) == [];
    assert forall e :: e in ALLOWED_VIDEO_EXT ==> |e| == 4;
  }

  /** A name that is only a suffix, such as ".mp4", has no suffix and is rejected. */
  lemma UploadWithoutSuffixRejected(ext: string)
    requires '/' !in ext && '.' !in ext
    ensures CheckUpload(Some("." + ext)) == Err(HTTP_BAD_REQUEST)
  {
    NoSuffixAfterLeadingDot(ext);
    EmptyExtensionRejected();
  }

  /** An upload without a file name is rejected. */
  lemma UploadWithoutNameRejected()
    ensures CheckUpload(None) == Err(HTTP_BAD_REQUEST)
  {
    NoSuffixOfEmpty();
    EmptyExtensionRejected();
  }

  // ---------------------------------------------------------------- frame extraction

  /** Rate assumed when the container reports none. */
  const DEFAULT_NATIVE_FPS: real := 25.0

  /** `max(int(round(native_fps / max(1, fps))), 1)`, with a zero native rate read as 25. */
  function SampleStep(nativeFps: real, fps: int): (step: int)
    ensures step >= 1
    ensures var ratio := (if nativeFps == 0.0 then DEFAULT_NATIVE_FPS else nativeFps) / Max(1, fps) as real;
      && (ratio >= 0.5 ==> -0.5 <= ratio - step as real <= 0.5)
      && (ratio < 0.5 ==> step == 1)
  {
    var native := if nativeFps == 0.0 then DEFAULT_NATIVE_FPS else nativeFps;
    Max(RoundHalfEven(native / Max(1, fps) as real), 1)
  }

  /** The name of the k-th written frame, counting from 1: `f"{k:06d}.jpg"`, ten characters below a million. */
  function FrameName(k: nat): (name: string)
    ensures |name| > 4 && name[|name| - 4..] == ".jpg"
    ensures k < 1000000 ==> |name| == 10
  {
    var digits := ZeroPad(k, 6);
    if k < 1000000 then
      assert Pow10(6) == 1000000;
      DecimalLength(k, 6);
      digits + ".jpg"
    else digits + ".jpg"
  }

  /**
   * `extract_frames` over a video of `frameCount` decoded frames: every `step`-th frame is
   * written, the files are numbered 1, 2, ... in writing order, and the count is returned.
   * A video that cannot be opened is a 400.
   */
  method ExtractFrames(canOpen: bool, nativeFps: real, frameCount: nat, fps: int)
    returns (r: Result<nat, int>, written: seq<nat>, names: seq<string>)
    ensures r.Err? <==> !canOpen
    ensures r.Err? ==> r.error == HTTP_BAD_REQUEST && written == [] && names == []
    ensures r.Ok? ==>
      var step := SampleStep(nativeFps, fps);
      && r.value == |written| == |names| == CeilDiv(frameCount, step)
      && (forall k :: 0 <= k < |written| ==> written[k] == k * step && names[k] == FrameName(k + 1))
  {
    written, names := [], [];
    if !canOpen {
      return Err(HTTP_BAD_REQUEST), written, names;
    }
    var step := SampleStep(nativeFps, fps);
    var idx := 0;
    var saved := 0;
    while idx < frameCount
      invariant idx <= frameCount
      invariant saved == |written| == |names| == CeilDiv(idx, step)
      invariant forall k :: 0 <= k < |written| ==> written[k] == k * step && names[k] == FrameName(k + 1)
    {
      CeilDivStep(idx, step);
      if idx % step == 0 {
        KeptIndexIsCount(idx, step);
        assert idx == saved * step;
        names := names + [FrameName(saved + 1)];
        written := written + [idx];
        saved := saved + 1;
      }
      idx := idx + 1;
    }
    r := Ok(saved);
  }

  /** Written frame names are all different. */
  lemma FrameNamesDistinct(j: nat, k: nat)
    requires FrameName(j) == FrameName(k)
    ensures j == k
  {
    var a, b := ZeroPad(j, 6), ZeroPad(k, 6);
    assert a == (a + ".jpg")[..|a + ".jpg"| - 4];
    assert b == (b + ".jpg")[..|b + ".jpg"| - 4];
    ZeroPadInjective(j, k, 6);
  }
}

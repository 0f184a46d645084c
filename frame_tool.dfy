/**
 * The command-line frame extractor: URL detection, the downloader's answer, the sampling
 * step and the loop that writes every step-th decoded frame as `<stem>_<index>.jpg`.
 * The downloader's output, the frame rate the container reports and the number of frames
 * the decoder delivers are parameters.
 */
module FrameTool {
  import opened Wrappers
  import opened Numbers
  import opened Strings
  import opened Paths

  /** Frame rate assumed when the container reports 0. */
  const FALLBACK_SOURCE_FPS: real := 30.0
  /** Default of `--fps`. */
  const DEFAULT_FPS: real := 5.0
  /** Width of the zero-padded frame index in output names. */
  const INDEX_WIDTH: nat := 8

  /** `is_url`: an http or https URL; every such string has a scheme of at least seven characters. */
  predicate IsUrl(s: string)
    ensures IsUrl(s) ==> |s| >= 7 && s[..4] == "http" && s[..7] != "file://"
  {
    StartsWith(s, "http://") || StartsWith(s, "https://")
  }

  /** The text after the last line break (all of it when there is none). */
  function LastLine(t: string): (line: string)
    ensures |line| <= |t| && line == t[|t| - |line|..]
    ensures forall i :: 0 <= i < |line| ==> !IsLineBreak(line[i])
    ensures |line| < |t| ==> IsLineBreak(t[|t| - |line| - 1])
  {
    if t == [] || IsLineBreak(t[|t| - 1]) then [] else LastLine(t[..|t| - 1]) + [t[|t| - 1]]
  }

  /** Whatever precedes a final line break, the last line is what follows it. */
  lemma {:induction false} LastLineAfterBreak(before: string, line: string)
    requires forall i :: 0 <= i < |line| ==> !IsLineBreak(line[i])
    ensures LastLine(before + "\n" + line) == line
  {
    if line == [] {
      assert (before + "\n" + line)[|before + "\n" + line| - 1] == '\n';
    } else {
      var init := line[..|line| - 1];
      assert before + "\n" + line == (before + "\n" + init) + [line[|line| - 1]];
      assert (before + "\n" + line)[..|before + "\n" + line| - 1] == before + "\n" + init;
      LastLineAfterBreak(before, init);
    }
  }

  /** A stripped text does not end in a line break. */
  lemma StripEndsWithoutBreak(s: string)
    ensures var t := Strip(s); t == [] || !IsLineBreak(t[|t| - 1])
  {
    var l := TrimLeft(s, IsSpace);
    var t := TrimRight(l, IsSpace);
    assert Strip(s) == t;
    assert t == [] || !IsSpace(t[|t| - 1]);
  }

  /**
   * `resolve_video_path`: a URL is handed to the downloader and the last line of its
   * stripped output is the path; any other source is the path itself. `None` when the
   * stripped output is empty, where taking its last line fails.
   */
  function ResolveVideoPath(src: string, downloaderOutput: string): (r: Option<string>)
    ensures !IsUrl(src) ==> r == Some(src)
    ensures IsUrl(src) ==> (r.None? <==> Strip(downloaderOutput) == [])
    ensures IsUrl(src) && r.Some? ==> r.value != [] && r.value == LastLine(Strip(downloaderOutput))
  {
    if IsUrl(src) then
      var t := Strip(downloaderOutput);
      if t == [] then None
      else
        StripEndsWithoutBreak(downloaderOutput);
        Some(LastLine(t))
    else Some(src)
  }

  /**
   * `max(1, int(round(src_fps / fps)))`, with a reported rate of 0 read as 30. `None` for
   * `--fps 0`, where the division fails.
   */
  function StepFor(srcFps: real, fps: real): (step: Option<int>)
    ensures step.None? <==> fps == 0.0
    ensures step.Some? ==> step.value >= 1
    ensures step.Some? ==>
              var ratio := (if srcFps == 0.0 then FALLBACK_SOURCE_FPS else srcFps) / fps;
              && (ratio >= 0.5 ==> -0.5 <= ratio - step.value as real <= 0.5)
              && (ratio < 0.5 ==> step.value == 1)
  {
    if fps == 0.0 then None
    else
      var src := if srcFps == 0.0 then FALLBACK_SOURCE_FPS else srcFps;
      Some(Max(1, RoundHalfEven(src / fps)))
  }

  /** `f"{stem}_{idx:08d}.jpg"`: the stem, an underscore, eight digits below 10^8, and ".jpg". */
  function FrameFile(stem: string, idx: nat): (name: string)
    ensures |name| > |stem| + 4 && name[..|stem| + 1] == stem + "_" && name[|name| - 4..] == ".jpg"
    ensures idx < 100000000 ==> |name| == |stem| + 13
  {
    var digits := ZeroPad(idx, INDEX_WIDTH);
    if idx < 100000000 then
      assert Pow10(8) == 100000000;
      DecimalLength(idx, 8);
      stem + "_" + digits + ".jpg"
    else stem + "_" + digits + ".jpg"
  }

  /** Different source indices give different file names. */
  lemma FrameFilesDistinct(stem: string, i: nat, j: nat)
    requires FrameFile(stem, i) == FrameFile(stem, j)
    ensures i == j
  {
    var a, b := ZeroPad(i, INDEX_WIDTH), ZeroPad(j, INDEX_WIDTH);
    var fa, fb := FrameFile(stem, i), FrameFile(stem, j);
    assert a == fa[|stem| + 1..|fa| - 4];
    assert b == fb[|stem| + 1..|fb| - 4];
    ZeroPadInjective(i, j, INDEX_WIDTH);
  }

  /**
   * The sampling loop: frames 0 .. frameCount-1 are decoded in order and those whose index
   * is a multiple of `step` are written under their own index.
   */
  method SampleFrames(stem: string, frameCount: nat, step: int)
    returns (saved: nat, written: seq<nat>, names: seq<string>)
    requires step >= 1
    ensures saved == |written| == |names| == CeilDiv(frameCount, step)
    ensures forall k :: 0 <= k < |written| ==> written[k] == k * step
    ensures forall k :: 0 <= k < |names| ==> names[k] == FrameFile(stem, written[k])
    ensures frameCount > 0 ==> |written| > 0 && written[0] == 0
  {
    saved, written, names := 0, [], [];
    var idx := 0;
    while idx < frameCount
      invariant idx <= frameCount
      invariant saved == |written| == |names| == CeilDiv(idx, step)
      invariant forall k :: 0 <= k < |written| ==> written[k] == k * step
      invariant forall k :: 0 <= k < |names| ==> names[k] == FrameFile(stem, written[k])
    {
      CeilDivStep(idx, step);
      if idx % step == 0 {
        KeptIndexIsCount(idx, step);
        names := names + [FrameFile(stem, idx)];
        written := written + [idx];
        saved := saved + 1;
      }
      idx := idx + 1;
    }
    if frameCount > 0 {
      KeptIndexBelow(frameCount, step, 0);
    }
  }

  /** Why the tool stops without writing: the video does not open, or `--fps` is 0. */
  datatype Failure = CannotOpen | ZeroFps

  /**
   * `main` after argument parsing: open the resolved video, work out the step, and sample
   * the frames under the stem of the video's path.
   */
  method ExtractFrames(videoPath: string, canOpen: bool, srcFps: real, fps: real, frameCount: nat)
    returns (r: Result<nat, Failure>, names: seq<string>)
    ensures !canOpen ==> r == Err(CannotOpen) && names == []
    ensures canOpen && fps == 0.0 ==> r == Err(ZeroFps) && names == []
    ensures canOpen && fps != 0.0 ==>
              var step := StepFor(srcFps, fps).value;
              && r == Ok(CeilDiv(frameCount, step)) && |names| == r.value
              && forall k :: 0 <= k < |names| ==> names[k] == FrameFile(Stem(videoPath), k * step)
  {
    names := [];
    if !canOpen {
      return Err(CannotOpen), names;
    }
    var step := StepFor(srcFps, fps);
    if step.None? {
      return Err(ZeroFps), names;
    }
    var saved, written;
    saved, written, names := SampleFrames(Stem(videoPath), frameCount, step.value);
    r := Ok(saved);
  }
}

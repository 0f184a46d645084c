# label-ball-detection, modelled in Dafny

label-ball-detection is a table-tennis toolkit. A labelling tool draws ball boxes on
extracted video frames and writes them as YOLO label files. A web labeller turns uploaded
videos into frame sets and records click labels. An analyzer finds the ball in every frame
of a match video and projects it onto the table through a homography calibrated from four
clicked corners. It then reports the bounces and streams the preview video with HTTP byte
ranges.

This project models the decision logic of those programs and proves what it promises. Each
part keeps the form of the code it models:

- Pure expressions are functions.
- Loops are methods with invariants, proved against a specification function.
- The labelling session is a class whose methods update its fields in place.

Coordinates, confidences and frame rates are `real`. Python integers are `int`. Strings are
`seq<char>`, and files are byte sequences.

Modules:

- `Wrappers`, `Numbers`, `Strings`, `Paths`, `Stamps`: the parts of Python the code relies on.
  - `int()` of a float truncates toward zero.
  - `round()` rounds half to even.
  - Also covered: `str.strip`, `str.lower`, `str.split`, `str.replace`, `str.splitlines`, `int(str)`, `f"{n:0Nd}"`, `strftime('%Y-%m-%d')`, and pathlib's `name`/`suffix`/`stem`.
- `TableGeometry`, `BounceDetection`, `BouncePipeline`, `BounceExamples`: the bounce analysis of `infer_bounce_heatmap_backup.py`.
  - Projection onto the table, and the margin test.
  - `find_bounces`.
  - Per-frame box selection and the accumulator loop.
  - The CSV rows with their times.
  - Worked tracks.
- `LabelGeometry`, `LabelTool`: `label_tool.py`.
  - The YOLO/corner converters, point clamping and the drag rule.
  - The `Labeler` class: navigation, saving, mouse and key handling, and the key loop.
- `Slug`, `LabelerService`: the web labeller `ball-web-labeler-subpath/app.py`.
  - `slugify` and task ids.
  - Click-label normalisation.
  - The upload extension check.
  - Frame sampling.
- `RangeStreaming`, `AnalyzerApi`: the analyzer web app `webapp/fastapi_app.py`.
  - Range-request parsing, clamping and chunked streaming.
  - The calibration check.
  - Analysis ids and their directories.
- `FrameTool`: `tools/extract_frames.py`.
  - URL detection and the downloader's answer.
  - The sampling step.
  - The frame loop and its file names.

Some consequences of the code are easy to miss. A lemma pins each one down:

- **Valleys are not bounces.** `find_bounces` looks for strict local *maxima* of image y, as its docstring says ("local maximum in y_img"). So the valley y = [10, 5, 2, 5, 10] gives no bounce (`BounceExamples.MinimumIsNoBounce`), and the peak [2, 5, 10, 5, 2] gives one, at frame 2 (`BounceExamples.PeakIsOneBounce`).
- **The debounce gap is truncated.** The code compares frame distances against `int(min_gap_s * fps)`. At 30 fps and 0.25 s that is 7 frames, not 7.5, so two bounces 7 frames apart are both reported (`BounceExamples.DebounceIsTruncated`).
- **The gate thresholds are fixed.** The confidence threshold (0.15) and the table margin (0.05 m) are literals inside `find_bounces`, not parameters, and the 0.05 margin overrides the 0.03 default of `inside_table` (`BounceDetection.MIN_CONF`, `BounceDetection.BOUNCE_MARGIN`).
- **Gated bounces can fall outside the histogram.** The bounce gate uses a 0.05 m margin around the table. The heatmap bins only cover the table itself, so a bounce in the margin band passes the gate but is not counted in any bin (`TableGeometry.MarginBandOutsideTable`). A count-conservation property therefore does not hold, and none is claimed.
- **`bytes=-N` is not a suffix range.** Section 2.1 of RFC 7233 defines `bytes=-N` as the last N bytes. The analyzer reads it as bytes 0 through N (`RangeStreaming.SuffixFormReadFromStart`).
- **Inverted ranges are not rejected.** A range whose start lies after its end announces a `content-length` of zero or less and sends nothing (`RangeStreaming.InvertedRangeIsEmpty`).

## Model

| member | source | states |
|---|---|---|
| Numbers.Trunc | ball-web-analyzer/infer_bounce_heatmap_backup.py:144 | `int()` of a float lies within one unit of its argument, on the side toward zero |
| Numbers.RoundHalfEven | ball-web-analyzer/label_tool.py:30-33 | `round()` is within 0.5 of its argument, and on a tie it picks the even neighbour |
| Numbers.RoundNearest | ball-web-analyzer/label_tool.py:30-33 | a value strictly less than 0.5 away from an integer rounds to that integer |
| Numbers.KeptIffMultiple | ball-web-analyzer/tools/extract_frames.py:41 | an index below n is the k-th kept index, for some k < ceil(n/step), exactly when `idx % step == 0` |
| Strings.LowerOf | ball-web-labeler-subpath/app.py:72 | `str.lower` of one character: `A`..`Z` become `a`..`z` at the same offset, KELVIN SIGN becomes `k`, dotted capital I becomes `i` and a combining dot above, every other character stays; no ASCII capital, KELVIN SIGN or dotted capital I is left |
| Strings.Lower | ball-web-labeler-subpath/app.py:72 | after lower-casing, no ASCII capital, KELVIN SIGN or dotted capital I is left |
| Strings.LowerAppend | ball-web-labeler-subpath/app.py:72 | lower-casing works character by character: the lower case of `a + b` is the lower case of `a` followed by that of `b` |
| Strings.LowerAscii | ball-web-labeler-subpath/app.py:72 | without KELVIN SIGN and dotted capital I, lower-casing keeps the length and maps each `A`..`Z` to its small letter and keeps every other character, index by index |
| Strings.LowerKeeps | ball-web-labeler-subpath/app.py:72 | a string without those capitals is its own lower case |
| Strings.ParseIntOfDigits | ball-web-analyzer/webapp/fastapi_app.py:394-395 | `int()` of a run of ASCII digits is its decimal value, leading zeros included |
| Stamps.FormatDate | ball-web-labeler-subpath/app.py:79 | `%Y-%m-%d` contains only digits and '-', and no '/' |
| Stamps.FormatDateShape | ball-web-labeler-subpath/app.py:79 | a four-digit year gives ten characters, with dashes at positions 4 and 7 |
| Paths.Suffix | ball-web-labeler-subpath/app.py:224 | pathlib's suffix is empty, or one '.' followed by at least one character and no other dot |
| Paths.StemThenSuffix | ball-web-labeler-subpath/app.py:224 | stem followed by suffix is the file name |
| Paths.SuffixOfDotted | ball-web-labeler-subpath/app.py:224 | `stem.ext`, with a non-empty stem and no dot in ext, has suffix `.ext` |
| Paths.StemOfDotted | ball-web-labeler-subpath/app.py:329 | `stem.ext`, with a non-empty stem and no dot in ext, has stem `stem` |
| Paths.NoSuffixAfterLeadingDot | ball-web-labeler-subpath/app.py:224 | a name that is only a dot and an extension (`.mp4`) has no suffix |
| TableGeometry.Project | ball-web-analyzer/infer_bounce_heatmap_backup.py:118-124 | a projected point exists exactly when `w + 1e-9` is not 0, and then each coordinate times that divisor is the matrix row applied to (x, y, 1) |
| TableGeometry.ProjectAffine | ball-web-analyzer/infer_bounce_heatmap_backup.py:118-124 | with bottom row (0, 0, 1 - 1e-9), projection is the affine map given by the top two rows |
| TableGeometry.InsideTable | ball-web-analyzer/infer_bounce_heatmap_backup.py:126-128 | definition of the gate: each coordinate within the table extended by the margin |
| TableGeometry.InsideTableMonotone | ball-web-analyzer/infer_bounce_heatmap_backup.py:126-128 | a point inside the table with some margin is inside with every larger margin |
| TableGeometry.MarginBandOutsideTable | ball-web-analyzer/infer_bounce_heatmap_backup.py:126-128 | a point 4 cm beyond the table edge passes the 0.05 gate but lies outside [0, TABLE_W] |
| BounceDetection.Picked | ball-web-analyzer/infer_bounce_heatmap_backup.py:143-157 | every index the left-to-right scan accepts lies before the scan position and is a gated strict local maximum |
| BounceDetection.IsCandidate | ball-web-analyzer/infer_bounce_heatmap_backup.py:146-153 | definition of the gates before the debounce; `CandidateGates` states them |
| BounceDetection.CandidateGates | ball-web-analyzer/infer_bounce_heatmap_backup.py:146-153 | a candidate is an interior strict local maximum of y, with confidence ≥ 0.15 and a projection within 0.05 m of the table on each side |
| BounceDetection.FindBounces | ball-web-analyzer/infer_bounce_heatmap_backup.py:131-158 | the loop returns the entries at the indices the scan accepts, with `last_bounce_frame` starting at -10^9 and the truncated gap; a track of fewer than 3 entries gives none |
| BounceDetection.PickedExtends | ball-web-analyzer/infer_bounce_heatmap_backup.py:146-157 | a longer scan only appends to what a shorter scan accepted |
| BounceDetection.PickedIncreasing | ball-web-analyzer/infer_bounce_heatmap_backup.py:146-157 | accepted indices are strictly increasing |
| BounceDetection.PickedNotAdjacent | ball-web-analyzer/infer_bounce_heatmap_backup.py:146-148 | no two adjacent track indices are both accepted |
| BounceDetection.PickedDebounced | ball-web-analyzer/infer_bounce_heatmap_backup.py:154-157 | consecutive accepted entries are at least the gap apart in frame number |
| BounceDetection.PickedNoneBefore | ball-web-analyzer/infer_bounce_heatmap_backup.py:146-153 | without a candidate before position k, nothing is accepted before k |
| BounceDetection.FirstCandidateReported | ball-web-analyzer/infer_bounce_heatmap_backup.py:143-157 | the first candidate is always reported first, whenever its frame is at least the gap above -10^9 |
| BounceDetection.CandidateReportedOrDebounced | ball-web-analyzer/infer_bounce_heatmap_backup.py:154-157 | every candidate is reported, or lies less than the gap after an earlier reported bounce |
| BounceDetection.BouncesAreTrackEntries | ball-web-analyzer/infer_bounce_heatmap_backup.py:146-157 | the output is the entries (frame, projected x, projected y, confidence) of a strictly increasing, pairwise non-adjacent run of candidate indices |
| BounceDetection.BouncesFromTrack | ball-web-analyzer/infer_bounce_heatmap_backup.py:156 | every reported frame is the frame of some track entry |
| BounceDetection.BouncesGated | ball-web-analyzer/infer_bounce_heatmap_backup.py:149-153 | every bounce has confidence ≥ 0.15, x in [-0.05, 2.79] and y in [-0.05, 1.575] |
| BounceDetection.BouncesDebounced | ball-web-analyzer/infer_bounce_heatmap_backup.py:144-157 | consecutive bounces are at least `int(min_gap_s * fps)` frames apart |
| BounceDetection.BouncesInFrameOrder | ball-web-analyzer/infer_bounce_heatmap_backup.py:146-157 | for strictly increasing track frames, bounce frames are strictly increasing |
| BounceExamples.MinimumIsNoBounce | ball-web-analyzer/infer_bounce_heatmap_backup.py:146-148 | the valley y = [10, 5, 2, 5, 10] gives no bounce |
| BounceExamples.PeakIsOneBounce | ball-web-analyzer/infer_bounce_heatmap_backup.py:146-157 | the peak y = [2, 5, 10, 5, 2] gives exactly one bounce, at frame 2, with the projected point and confidence of that entry |
| BounceExamples.PlateausAreNoBounce | ball-web-analyzer/infer_bounce_heatmap_backup.py:148 | equal neighbours at the bottom or at the top of a track never give a bounce |
| BounceExamples.NeighboursAcrossMissingFrames | ball-web-analyzer/infer_bounce_heatmap_backup.py:146-148 | neighbours are adjacent track entries: frames 0, 5 and 40 with y = 1, 3, 2 give a bounce at frame 5 |
| BounceExamples.TwoPeaksCandidates | ball-web-analyzer/infer_bounce_heatmap_backup.py:148-153 | in the two-peak track exactly indices 1 and 4 are candidates |
| BounceExamples.TwoPeaksPickedFirst | ball-web-analyzer/infer_bounce_heatmap_backup.py:154-157 | with a gap of 7, the scan has accepted only index 1 before index 4 |
| BounceExamples.TwoPeaksPicked | ball-web-analyzer/infer_bounce_heatmap_backup.py:154-157 | with a gap of 7, peaks 7 frames apart are both accepted |
| BounceExamples.DebounceIsTruncated | ball-web-analyzer/infer_bounce_heatmap_backup.py:144 | at 30 fps, 0.25 s is 7.5 frames but the gap is 7, so bounces at frames 1 and 8 are both reported |
| BouncePipeline.ArgMaxConf | ball-web-analyzer/infer_bounce_heatmap_backup.py:250 | the chosen box has the highest confidence, and every earlier box has strictly less (the first maximum) |
| BouncePipeline.BoxCenter | ball-web-analyzer/infer_bounce_heatmap_backup.py:251-254 | the centre of the int-truncated corners is within 1 of the exact midpoint, and equal to it for whole-number corners |
| BouncePipeline.BestOf | ball-web-analyzer/infer_bounce_heatmap_backup.py:244-260 | a frame has an observation exactly when some result has boxes |
| BouncePipeline.BestOfFirst | ball-web-analyzer/infer_bounce_heatmap_backup.py:244-260 | the observation comes from the first result with boxes |
| BouncePipeline.BestOfNone | ball-web-analyzer/infer_bounce_heatmap_backup.py:244-246 | without a result with boxes the frame has no observation |
| BouncePipeline.SelectBest | ball-web-analyzer/infer_bounce_heatmap_backup.py:244-260 | the loop over results returns `BestOf`: the first-maximum box of the first result that has boxes, or none |
| BouncePipeline.DetectedBelow | ball-web-analyzer/infer_bounce_heatmap_backup.py:262-263 | every recorded frame is below the scan position and has a detection |
| BouncePipeline.DetectedExactly | ball-web-analyzer/infer_bounce_heatmap_backup.py:262-263 | a frame is recorded exactly when it has a detection |
| BouncePipeline.DetectedIncreasing | ball-web-analyzer/infer_bounce_heatmap_backup.py:262-288 | recorded frame numbers are strictly increasing |
| BouncePipeline.Accumulate | ball-web-analyzer/infer_bounce_heatmap_backup.py:229-288 | the frame loop fills the four lists in lockstep, one entry per detected frame, with centres, confidences and projections of those frames |
| BouncePipeline.EffectiveFps | ball-web-analyzer/infer_bounce_heatmap_backup.py:186 | `cap.get(...) or 30.0`: the rate used is never 0, and is the reported one whenever that is not 0 |
| BouncePipeline.BounceTime | ball-web-analyzer/infer_bounce_heatmap_backup.py:309 | the time times the frame rate (30 when the rate is not positive) is the frame number |
| BouncePipeline.RowsOf | ball-web-analyzer/infer_bounce_heatmap_backup.py:308-310 | one CSV row per bounce with its frame, position and confidence, and the time of that frame |
| BouncePipeline.Analyse | ball-web-analyzer/infer_bounce_heatmap_backup.py:234-310 | accumulate, detect and tabulate give `Analysis`: the no-detection error, or one row per bounce `find_bounces` reports on the accumulated track |
| BouncePipeline.AnalysisFailsIffNoBall | ball-web-analyzer/infer_bounce_heatmap_backup.py:296-297 | the analysis fails exactly when no frame has a detection |
| BouncePipeline.AnalysisBouncesFromBall | ball-web-analyzer/infer_bounce_heatmap_backup.py:298-303 | every bounce lies on a frame of the video that has a detection |
| BouncePipeline.AnalysisRowsGated | ball-web-analyzer/infer_bounce_heatmap_backup.py:303-310 | every row is on a detected frame and passes the confidence and table gates |
| BouncePipeline.AnalysisRowsOrdered | ball-web-analyzer/infer_bounce_heatmap_backup.py:303-310 | row frames strictly increase, and consecutive rows are at least the truncated gap apart |
| LabelGeometry.Corners | ball-web-analyzer/label_tool.py:30-34 | rounded corners are clamped to x1, y1 ≥ 0, x2 ≤ W-1 and y2 ≤ H-1, and keep the class |
| LabelGeometry.YoloToXyxy | ball-web-analyzer/label_tool.py:26-34 | the corners lie within those clamps, and the class is the float class truncated |
| LabelGeometry.CornersNear | ball-web-analyzer/label_tool.py:30-33 | each unclamped corner is within 0.5 of centre ± half size |
| LabelGeometry.XyxyToYolo | ball-web-analyzer/label_tool.py:36-42 | centre times W (or H) is the corner midpoint, and size times W (or H) is the corner difference |
| LabelGeometry.ExactCorners | ball-web-analyzer/label_tool.py:30-34 | the midpoint and size of an integer box in the image give back its corners |
| LabelGeometry.YoloRoundTrip | ball-web-analyzer/label_tool.py:26-42 | an integer box inside the image, converted to YOLO and back, keeps its corners, with the given class |
| LabelGeometry.ClampPoint | ball-web-analyzer/label_tool.py:98-100 | the clamped point lies in [0,W-1]×[0,H-1], is unchanged inside, and goes to the nearest edge outside |
| LabelGeometry.DragBox | ball-web-analyzer/label_tool.py:116 | the box's corners are the drag's end points ordered per axis, with class 0 |
| LabelGeometry.DragBoxInImage | ball-web-analyzer/label_tool.py:114-116 | a drag between points of the image gives a box inside the image |
| LabelTool.LoadedBoxes | ball-web-analyzer/label_tool.py:62-72 | an image without a label file loads no boxes |
| LabelTool.LabelLines | ball-web-analyzer/label_tool.py:74-87 | one label line per box, each of class 0 |
| LabelTool.SaveLoadRoundTrip | ball-web-analyzer/label_tool.py:62-87 | boxes inside the image, saved and loaded again, are the same boxes with class 0 |
| LabelTool.Labeler.constructor | ball-web-analyzer/label_tool.py:45-60 | starts on the first image with its stored boxes, unsaved, not dragging, with thickness 2 |
| LabelTool.Labeler.Open | ball-web-analyzer/label_tool.py:48-50 | a labeller exists exactly when there are images |
| LabelTool.Labeler.LoadImage | ball-web-analyzer/label_tool.py:89-96 | the current image's stored boxes become the box list, and it is unsaved |
| LabelTool.Labeler.SaveLabels | ball-web-analyzer/label_tool.py:74-87 | the current image's label file becomes the class-0 lines of the boxes, and the state is saved |
| LabelTool.Labeler.NextImage | ball-web-analyzer/label_tool.py:140-145 | saves if unsaved, then moves one image on, except at the last image, where idx and boxes stay |
| LabelTool.Labeler.PrevImage | ball-web-analyzer/label_tool.py:147-152 | saves if unsaved, then moves one image back, except at the first image, where idx and boxes stay |
| LabelTool.Labeler.Clamp | ball-web-analyzer/label_tool.py:98-100 | the clamped point lies in the current image, and a point inside it is unchanged |
| LabelTool.Labeler.OnMouse | ball-web-analyzer/label_tool.py:102-122 | each event's new state (press, move, release, other); a release appends the normalised box and clears `saved` only when both sides are ≥ 3 |
| LabelTool.Labeler.HandleKey | ball-web-analyzer/label_tool.py:159-179 | each key's whole new state: quit saves if needed and keeps idx, boxes and thickness; 's' saves; 'n'/right and 'p'/left give `NextImage`'s and `PrevImage`'s new idx, labels, boxes and saved flag with the thickness kept; 'd' drops only the last box if any; 'c' clears; thickness stays in [1,12]; other keys change nothing; `Valid` (saved means the current label file holds exactly the current boxes) is kept |
| LabelTool.Labeler.Run | ball-web-analyzer/label_tool.py:154-180 | the loop masks each key code to one byte (`& 0xFF`) and consumes inputs up to and including the first quit key; after a quit the label file of the current image holds exactly the class-0 lines of its boxes |
| Slug.ReplaceDisallowedRuns | ball-web-labeler-subpath/app.py:73 | the result contains only `[a-z0-9._-]` and begins with the input's first character or '-' |
| Slug.ReplaceKeepsPrefix | ball-web-labeler-subpath/app.py:73 | a prefix of allowed characters passes the substitution unchanged, in order |
| Slug.ReplaceRun | ball-web-labeler-subpath/app.py:73 | a maximal run of disallowed characters after an allowed prefix becomes exactly one '-', and the rest is substituted in turn |
| Slug.CollapseDashes | ball-web-labeler-subpath/app.py:74 | no '--' remains, and the first character is kept |
| Slug.CollapseKeepsChars | ball-web-labeler-subpath/app.py:74 | every character of the collapsed string is '-' or comes from the input |
| Slug.CollapseRun | ball-web-labeler-subpath/app.py:74 | a run of dashes after a dash-free prefix becomes exactly one '-', and the rest is collapsed in turn |
| Slug.TrimDashesIsSlug | ball-web-labeler-subpath/app.py:74 | stripping dashes from a clean string leaves an empty string or a slug |
| Slug.Slugify | ball-web-labeler-subpath/app.py:71-75 | the result is a slug (allowed characters, no '--', no '-' at either end, not empty) or the fallback |
| Slug.SlugifyJoinsWords | ball-web-labeler-subpath/app.py:71-75 | two words whose lower cases are dash-free slug words, around a run of disallowed characters (`Hello   World`), become their lower cases joined by one '-' (`hello-world`) |
| Slug.SlugifyNeverEmpty | ball-web-labeler-subpath/app.py:75 | with the default fallback the result is always a slug |
| Slug.ReplaceKeepsSlugChars | ball-web-labeler-subpath/app.py:73 | a string of allowed characters is left unchanged by the replacement |
| Slug.CollapseKeepsSingleDashes | ball-web-labeler-subpath/app.py:74 | a string without '--' is left unchanged by the collapse |
| Slug.SlugifyFixesSlugs | ball-web-labeler-subpath/app.py:71-75 | a slug is its own slugification |
| Slug.SlugifyIdempotent | ball-web-labeler-subpath/app.py:71-75 | slugifying twice is the same as slugifying once |
| LabelerService.NewTaskId | ball-web-labeler-subpath/app.py:78-81 | the id is `<date>/<slug>-<seconds>` with the hint's slug a genuine slug, so the `task-` fallback is never taken |
| LabelerService.TaskIdShape | ball-web-labeler-subpath/app.py:78-81 | splitting the id at '/' gives exactly the date and `<slug>-<seconds>` |
| LabelerService.Clamp01 | ball-web-labeler-subpath/app.py:321-324 | the result lies in [0,1], equals the value inside, and is the nearer bound outside |
| LabelerService.NormaliseClick | ball-web-labeler-subpath/app.py:313-327 | the label has class 0 and x, y, w, h all in [0,1] |
| LabelerService.ClickRecorded | ball-web-labeler-subpath/app.py:313-324 | for a click inside the image, x·W and y·H are the click, and w·W (h·H) is the side max(2, box), capped at W (H) |
| LabelerService.SaveLabel | ball-web-labeler-subpath/app.py:306-330 | 404 exactly when the frame is missing; otherwise the label goes to `<frame stem>.txt` |
| LabelerService.CheckUpload | ball-web-labeler-subpath/app.py:224-226 | an accepted upload's lower-cased suffix is on the allow-list, and a rejection is a 400 |
| LabelerService.UploadByExtension | ball-web-labeler-subpath/app.py:224-226 | `stem.ext` is accepted exactly when the lower-cased `.ext` is on the allow-list |
| LabelerService.EmptyExtensionRejected | ball-web-labeler-subpath/app.py:224-226 | the empty suffix is not on the allow-list |
| LabelerService.UploadWithoutSuffixRejected | ball-web-labeler-subpath/app.py:224-226 | a name that is only `.ext` (no stem) is rejected with 400 |
| LabelerService.UploadWithoutNameRejected | ball-web-labeler-subpath/app.py:224-226 | an upload without a file name is rejected with 400 |
| LabelerService.SampleStep | ball-web-labeler-subpath/app.py:107-108 | the sampling step is at least 1 and within 0.5 of the rate ratio (25 fps when the rate is 0), or 1 for a ratio below 0.5 |
| LabelerService.ExtractFrames | ball-web-labeler-subpath/app.py:101-122 | 400 exactly when the video does not open; otherwise frames 0, step, 2·step, … are written as 000001.jpg, 000002.jpg, …, and the count ceil(n/step) is returned |
| LabelerService.FrameName | ball-web-labeler-subpath/app.py:116 | a written frame's name ends in `.jpg` and is ten characters long for numbers below a million (six zero-padded digits) |
| LabelerService.FrameNamesDistinct | ball-web-labeler-subpath/app.py:116 | different output numbers give different file names |
| RangeStreaming.ParseRange | ball-web-analyzer/webapp/fastapi_app.py:393-400 | a parsed range has start ≥ 0, end ≤ size-1 and content length end-start+1 |
| RangeStreaming.Clamp | ball-web-analyzer/webapp/fastapi_app.py:398-400 | clamping gives start ≥ 0, end ≤ size-1 and length end-start+1 |
| RangeStreaming.ExplicitRange | ball-web-analyzer/webapp/fastapi_app.py:393-400 | `bytes=a-b` is the range a..b, clamped to the file |
| RangeStreaming.OpenEndedRange | ball-web-analyzer/webapp/fastapi_app.py:393-400 | `bytes=a-` runs to the last byte |
| RangeStreaming.SuffixFormReadFromStart | ball-web-analyzer/webapp/fastapi_app.py:393-395 | `bytes=-n` is bytes 0..n, clamped, not the last n bytes |
| RangeStreaming.BareDashIsWholeFile | ball-web-analyzer/webapp/fastapi_app.py:393-395 | `bytes=-` is the whole file |
| RangeStreaming.NoDashFails | ball-web-analyzer/webapp/fastapi_app.py:393-395 | a header with no '-' after removing `bytes=` fails to parse |
| RangeStreaming.ContentRange | ball-web-analyzer/webapp/fastapi_app.py:415 | definition of the `content-range` header text `bytes <start>-<end>/<size>` |
| RangeStreaming.Read | ball-web-analyzer/webapp/fastapi_app.py:408 | a read returns at most n bytes from the position, fewer only at the end of the file, and nothing past it |
| RangeStreaming.Window | ball-web-analyzer/webapp/fastapi_app.py:404-412 | the bytes a ranged read can deliver number at most the content length |
| RangeStreaming.StreamRange | ball-web-analyzer/webapp/fastapi_app.py:402-412 | chunks of 1..8192 bytes, all but the last full, concatenating to the file's bytes from start for at most content-length bytes, stopping at the end of the file |
| RangeStreaming.StreamWhole | ball-web-analyzer/webapp/fastapi_app.py:428-431 | chunks of 1..8192 bytes, all but the last full, concatenating to the whole file |
| RangeStreaming.RangeBodySize | ball-web-analyzer/webapp/fastapi_app.py:398-412 | a clamped range's body is max(0, content length) bytes long, and is exactly bytes start..end when that is positive |
| RangeStreaming.InvertedRangeIsEmpty | ball-web-analyzer/webapp/fastapi_app.py:398-412 | start > end gives a content length ≤ 0 and an empty body |
| RangeStreaming.RangeRequestsResponse | ball-web-analyzer/webapp/fastapi_app.py:382-442 | 500 exactly when a non-empty header does not parse; otherwise 206 with `content-range`, `accept-ranges` and `content-length` and the selected bytes, or 200 with the whole file |
| RangeStreaming.RangedBodyMatchesLength | ball-web-analyzer/webapp/fastapi_app.py:400-417 | the body of a parsed range is as long as its `content-length` header, when that is positive |
| AnalyzerApi.NewAnalysisId | ball-web-analyzer/webapp/fastapi_app.py:76-79 | the id is `<date>/analysis-` followed by the decimal form of the seconds |
| AnalyzerApi.AnalysisIdShape | ball-web-analyzer/webapp/fastapi_app.py:76-79 | splitting an analysis id at '/' gives exactly the date and `analysis-<seconds>` |
| AnalyzerApi.AnalysisDir | ball-web-analyzer/webapp/fastapi_app.py:81-83 | the id with every '/' replaced by the separator: same length, every other character kept, no '/' left unless the separator is '/', and the id unchanged when the separator is '/' |
| AnalyzerApi.AnalysisDirOfNewId | ball-web-analyzer/webapp/fastapi_app.py:76-83 | a fresh id with its '/' replaced is `<date><sep>analysis-<seconds>` |
| AnalyzerApi.CalibrateTable | ball-web-analyzer/webapp/fastapi_app.py:314-327 | accepted exactly when the analysis exists and there are 4 points; 404 or 400 otherwise; stored and echoed as given |
| FrameTool.IsUrl | ball-web-analyzer/tools/extract_frames.py:5-6 | definition of the URL test: starts with `http://` or `https://` |
| FrameTool.LastLine | ball-web-analyzer/tools/extract_frames.py:16 | the last line is a suffix without line breaks, preceded by a line break unless it is the whole text |
| FrameTool.LastLineAfterBreak | ball-web-analyzer/tools/extract_frames.py:16 | whatever comes before the final line break, the last line is what follows it |
| FrameTool.ResolveVideoPath | ball-web-analyzer/tools/extract_frames.py:8-17 | a non-URL is returned unchanged; for a URL the path is the last line of the stripped output, non-empty, and it fails exactly when that output is empty |
| FrameTool.StepFor | ball-web-analyzer/tools/extract_frames.py:32-33 | the step is ≥ 1 and within 0.5 of the rate ratio (30 fps when the rate is unknown), or 1 for a ratio below 0.5; fps 0 fails |
| FrameTool.FrameFile | ball-web-analyzer/tools/extract_frames.py:42 | the name is the stem, '_', the index and `.jpg`, and the index part is exactly eight digits below 10^8 |
| FrameTool.FrameFilesDistinct | ball-web-analyzer/tools/extract_frames.py:42 | different source indices give different file names |
| FrameTool.SampleFrames | ball-web-analyzer/tools/extract_frames.py:35-45 | the loop writes frames 0, step, 2·step, … as `<stem>_<idx:08d>.jpg`, ceil(n/step) of them, frame 0 whenever there is a frame |
| FrameTool.ExtractFrames | ball-web-analyzer/tools/extract_frames.py:29-47 | stops when the video does not open or fps is 0; otherwise returns the count and names of the sampled frames under the video's stem |

## Left out

- Video decoding and encoding, YOLO inference and training, and `cv2.findHomography`. Per-frame detections and the 3×3 matrix are inputs, and the frame loop stops at the end of the given frames.
- The show-window key check that can end the analysis loop early. Drawing, preview writing, `pick_points`, `Labeler.render`, and the Streamlit app `ball-web-analyzer/webapp/app.py`.
- The heatmap: `np.histogram2d` binning and the matplotlib rendering are library calls.
- Floating-point behaviour. Projection divides exactly by `w + 1e-9`, so NaN and infinity do not arise; a zero divisor gives no point, and such an entry is never a bounce. Image points are not rounded to float32.
- Text formatting of numbers: `:.3f`, `:.4f` and `:.6f` in the CSV and label lines, and the JSON text of the calibration file. Rows and labels are kept as numbers.
- Parsing label-file text. A label file is held as its parsed lines of five numbers, so the blank lines `load_labels` skips do not occur, and a malformed line is not modelled.
- Files and the clock. Label files are a map from image stem to lines. Whether a directory, frame or image exists is a flag, and image sizes are inputs. Wall-clock dates and the seconds values are parameters. In the analyzer they stand for `int(utcnow().timestamp())`, which reads the naive UTC reading as local time, so they are Unix seconds only on a host whose local zone is UTC. The read errors behind `SystemExit` are not modelled, except an empty image list.
- `subprocess` calls, yt-dlp and the download helpers. The downloader's output is a parameter of `FrameTool.ResolveVideoPath`.
- HTTP plumbing: routing, `HTTPException` handling, `StreamingResponse` and its media type. An unhandled exception in the range parser is modelled as a 500 answer.
- `ball-admin/app.py`, `infer_video_ball.py`, `tools/train_ball.py` and `tools/move_empty_train_labels.py`: storage admin, a display loop and library wrappers.
- Strings.Lower: exact for ASCII capitals, KELVIN SIGN and dotted capital I, the only characters whose lower case contains an ASCII character. Other non-ASCII capitals are kept as they are rather than lower-cased, which is enough for the `[a-z0-9._-]` filter that follows it and for the extension allow-list.
- Strings.ParseInt: reads an optional sign and ASCII digits between spaces. Python's `int()` also accepts underscores between digits and non-ASCII decimal digits.
- Paths.Name: treats the path as text. `.` and `..` components are not normalised.
- LabelTool.Labeler.OnMouse: the appended box is only proved inside the current image when the drag started on that image. The code does not reset `start_pt` when the image changes. A drag begun on a larger image and released on a smaller one can therefore keep a corner outside the new image.
- AnalyzerApi.AnalysisDir: only the replacement of '/' by the separator is modelled, not the join `DATA_DIR / ...`. pathlib drops `DATA_DIR` when the replaced id is absolute (it starts with '/' on POSIX), and it keeps `..` components. So an id that reaches the `{analysis_id:path}` routes can name a directory outside the data directory, and the model says nothing about that.
- AnalyzerApi.CalibrateTable: only the number of points is checked, as in the code. Four points of any length, including empty ones, are stored.

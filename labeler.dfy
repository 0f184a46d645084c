/**
 * The desktop labeler's session: the list of images, the current index, the boxes of the
 * current image, the saved flag, the drag in progress and the rectangle thickness. The label
 * directory is a map from image stem to the label lines stored for it.
 */
module LabelTool {
  import opened Wrappers
  import opened Numbers
  import opened LabelGeometry

  /** An image that was read: its stem names its label file; it has at least one pixel. */
  datatype ImageFile = ImageFile(stem: string, width: int, height: int)
  type Image = f: ImageFile | f.width >= 1 && f.height >= 1 witness ImageFile("", 1, 1)

  /** The rectangle shown while dragging. */
  datatype Rect = Rect(x1: int, y1: int, x2: int, y2: int)

  datatype MouseEvent = LButtonDown | MouseMove | LButtonUp | OtherEvent

  /**
   * What the event loop receives: the raw code `cv2.waitKey(20)` returns (-1 when no key was
   * pressed; `Run` masks it to one byte) or a mouse event.
   */
  datatype Input = Key(code: int) | Mouse(event: MouseEvent, x: int, y: int)

  const KEY_ESC: int := 27
  const KEY_LEFT: int := 81
  const KEY_RIGHT: int := 83
  const DEFAULT_THICKNESS: int := 2
  const MIN_THICKNESS: int := 1
  const MAX_THICKNESS: int := 12

  /** `load_labels`: the stored lines of the image converted to pixel boxes; none without a file. */
  function LoadedBoxes(labels: map<string, seq<YoloLine>>, f: Image): (bs: seq<LabelBox>)
    ensures f.stem !in labels ==> bs == []
  {
    if f.stem in labels then
      var lines := labels[f.stem];
      seq(|lines|, j requires 0 <= j < |lines| => YoloToXyxy(lines[j], f.width, f.height))
    else []
  }

  /** The lines `save_labels` writes: one per box, each with class 0; no boxes gives an empty file. */
  function LabelLines(boxes: seq<LabelBox>, f: Image): (lines: seq<YoloLine>)
    ensures |lines| == |boxes|
    ensures forall j :: 0 <= j < |lines| ==> lines[j].cls == BALL_CLASS as real
  {
    seq(|boxes|, j requires 0 <= j < |boxes| => XyxyToYolo(boxes[j], f.width, f.height, BALL_CLASS))
  }

  /** A box with its class replaced by the ball class. */
  function AsBall(b: LabelBox): LabelBox {
    LabelBox(b.x1, b.y1, b.x2, b.y2, BALL_CLASS)
  }

  /** Saving and loading again gives the same boxes back, as ball boxes, if they lie in the image. */
  lemma SaveLoadRoundTrip(labels: map<string, seq<YoloLine>>, boxes: seq<LabelBox>, f: Image)
    requires forall j :: 0 <= j < |boxes| ==> InImage(boxes[j], f.width, f.height)
    ensures var bs := LoadedBoxes(labels[f.stem := LabelLines(boxes, f)], f);
      |bs| == |boxes| && forall j :: 0 <= j < |boxes| ==> bs[j] == AsBall(boxes[j])
  {
    var bs := LoadedBoxes(labels[f.stem := LabelLines(boxes, f)], f);
    forall j | 0 <= j < |boxes|
      ensures bs[j] == AsBall(boxes[j])
    {
      YoloRoundTrip(boxes[j], f.width, f.height, BALL_CLASS);
    }
  }

  predicate InsideImage(p: Pixel, f: Image) {
    0 <= p.x <= f.width - 1 && 0 <= p.y <= f.height - 1
  }

  class Labeler {
    const files: seq<Image>
    var idx: int
    var boxes: seq<LabelBox>
    var saved: bool
    var dragging: bool
    var startPt: Option<Pixel>
    var tempBox: Option<Rect>
    var boxThick: int
    var labels: map<string, seq<YoloLine>>

    ghost predicate Valid()
      reads this
    {
      && 0 <= idx < |files|
      && MIN_THICKNESS <= boxThick <= MAX_THICKNESS
      && (dragging ==> startPt.Some?)
      && (startPt.Some? ==> startPt.value.x >= 0 && startPt.value.y >= 0)
      && (saved ==> SavedOnDisk())
    }

    /** The label file of the current image holds exactly the lines of the current boxes. */
    ghost predicate SavedOnDisk()
      reads this
      requires 0 <= idx < |files|
    {
      files[idx].stem in labels && labels[files[idx].stem] == LabelLines(boxes, files[idx])
    }

    /** `__init__` with at least one image: first image, its stored boxes, thickness 2, no drag. */
    constructor (images: seq<Image>, labelDir: map<string, seq<YoloLine>>)
      requires |images| > 0
      ensures Valid()
      ensures files == images && labels == labelDir && idx == 0
      ensures boxes == LoadedBoxes(labelDir, images[0]) && !saved
      ensures !dragging && startPt == None && tempBox == None && boxThick == DEFAULT_THICKNESS
    {
      files := images;
      labels := labelDir;
      idx := 0;
      boxThick := DEFAULT_THICKNESS;
      boxes := LoadedBoxes(labelDir, images[0]);
      saved := false;
      dragging := false;
      startPt := None;
      tempBox := None;
    }

    /** Opening a folder without images is an error; otherwise a fresh session. */
    static method Open(images: seq<Image>, labelDir: map<string, seq<YoloLine>>) returns (r: Option<Labeler>)
      ensures r.None? <==> images == []
      ensures r.Some? ==> fresh(r.value) && r.value.Valid() && r.value.files == images && r.value.idx == 0
    {
      if images == [] {
        return None;
      }
      var lab := new Labeler(images, labelDir);
      r := Some(lab);
    }

    /** `load_image`: the boxes stored for the current image; not saved. */
    method LoadImage()
      requires Valid()
      modifies this
      ensures Valid()
      ensures boxes == LoadedBoxes(labels, files[idx]) && !saved
      ensures idx == old(idx) && labels == old(labels) && boxThick == old(boxThick)
      ensures dragging == old(dragging) && startPt == old(startPt) && tempBox == old(tempBox)
    {
      boxes := LoadedBoxes(labels, files[idx]);
      saved := false;
    }

    /** `save_labels`: the label file of the current image holds one class-0 line per box. */
    method SaveLabels()
      requires Valid()
      modifies this
      ensures Valid()
      ensures labels == old(labels)[files[idx].stem := LabelLines(boxes, files[idx])] && saved
      ensures idx == old(idx) && boxes == old(boxes) && boxThick == old(boxThick)
      ensures dragging == old(dragging) && startPt == old(startPt) && tempBox == old(tempBox)
    {
      var img := files[idx];
      labels := labels[img.stem := LabelLines(boxes, img)];
      saved := true;
    }

    /** The label directory after saving the current image if it is not saved yet. */
    ghost function SavedIfNeeded(): map<string, seq<YoloLine>>
      reads this
      requires Valid()
    {
      if saved then labels else labels[files[idx].stem := LabelLines(boxes, files[idx])]
    }

    /** `next_image`: save if needed, then move right unless already on the last image. */
    method NextImage()
      requires Valid()
      modifies this
      ensures Valid()
      ensures labels == old(SavedIfNeeded())
      ensures idx == if old(idx) < |files| - 1 then old(idx) + 1 else old(idx)
      ensures boxes == if old(idx) < |files| - 1 then LoadedBoxes(labels, files[idx]) else old(boxes)
      ensures saved == (old(idx) == |files| - 1)
      ensures boxThick == old(boxThick) && dragging == old(dragging) && startPt == old(startPt) && tempBox == old(tempBox)
    {
      if !saved {
        SaveLabels();
      }
      if idx < |files| - 1 {
        idx := idx + 1;
        saved := false;
        LoadImage();
      }
    }

    /** `prev_image`: save if needed, then move left unless already on the first image. */
    method PrevImage()
      requires Valid()
      modifies this
      ensures Valid()
      ensures labels == old(SavedIfNeeded())
      ensures idx == if old(idx) > 0 then old(idx) - 1 else old(idx)
      ensures boxes == if old(idx) > 0 then LoadedBoxes(labels, files[idx]) else old(boxes)
      ensures saved == (old(idx) == 0)
      ensures boxThick == old(boxThick) && dragging == old(dragging) && startPt == old(startPt) && tempBox == old(tempBox)
    {
      if !saved {
        SaveLabels();
      }
      if idx > 0 {
        idx := idx - 1;
        saved := false;
        LoadImage();
      }
    }

    /** `clamp_point` against the current image. */
    function Clamp(x: int, y: int): (p: Pixel)
      reads this
      requires Valid()
      ensures InsideImage(p, files[idx])
      ensures InsideImage(Pixel(x, y), files[idx]) ==> p == Pixel(x, y)
    {
      ClampPoint(x, y, files[idx].width, files[idx].height)
    }

    /**
     * `on_mouse`: press starts a drag at the clamped point, a move while dragging updates the
     * shown rectangle, a release while dragging ends the drag and keeps the box if it is at
     * least three pixels wide and high. Other events, and moves or releases without a drag,
     * change nothing.
     */
    method OnMouse(event: MouseEvent, x: int, y: int)
      requires Valid()
      modifies this
      ensures Valid()
      ensures idx == old(idx) && labels == old(labels) && boxThick == old(boxThick)
      ensures event == LButtonDown ==>
        dragging && startPt == Some(old(Clamp(x, y))) && tempBox == None && boxes == old(boxes) && saved == old(saved)
      ensures event == MouseMove && old(dragging) ==>
        var b := DragBox(old(startPt).value, old(Clamp(x, y)));
        dragging && startPt == old(startPt) && tempBox == Some(Rect(b.x1, b.y1, b.x2, b.y2))
        && boxes == old(boxes) && saved == old(saved)
      ensures event == LButtonUp && old(dragging) ==>
        var b := DragBox(old(startPt).value, old(Clamp(x, y)));
        !dragging && startPt == None && tempBox == None
        && (if Keeps(b) then boxes == old(boxes) + [b] && !saved else boxes == old(boxes) && saved == old(saved))
      ensures event == OtherEvent || (event != LButtonDown && !old(dragging)) ==>
        dragging == old(dragging) && startPt == old(startPt) && tempBox == old(tempBox)
        && boxes == old(boxes) && saved == old(saved)
      ensures |boxes| > |old(boxes)| ==>
        var b := boxes[|boxes| - 1];
        && boxes == old(boxes) + [b] && b.cls == BALL_CLASS
        && 0 <= b.x1 && b.x1 + MIN_BOX_SIDE <= b.x2 && 0 <= b.y1 && b.y1 + MIN_BOX_SIDE <= b.y2
        && (InsideImage(old(startPt).value, files[idx]) ==> InImage(b, files[idx].width, files[idx].height))
    {
      if event == LButtonDown {
        var p := Clamp(x, y);
        dragging := true;
        startPt := Some(p);
        tempBox := None;
      } else if event == MouseMove && dragging {
        var p := Clamp(x, y);
        var b := DragBox(startPt.value, p);
        tempBox := Some(Rect(b.x1, b.y1, b.x2, b.y2));
      } else if event == LButtonUp && dragging {
        dragging := false;
        var p := Clamp(x, y);
        var b := DragBox(startPt.value, p);
        if b.x2 - b.x1 >= MIN_BOX_SIDE && b.y2 - b.y1 >= MIN_BOX_SIDE {
          boxes := boxes + [b];
          saved := false;
        }
        tempBox := None;
        startPt := None;
      }
    }

    predicate IsQuitKey(key: int) { key == KEY_ESC || key == 'q' as int }

    /** The keys the loop reacts to. */
    predicate IsCommandKey(key: int) {
      || IsQuitKey(key) || key == KEY_LEFT || key == KEY_RIGHT
      || key == 's' as int || key == 'n' as int || key == 'p' as int || key == 'd' as int || key == 'c' as int
      || key == '+' as int || key == '=' as int || key == '-' as int || key == '_' as int
    }

    /**
     * One key of the event loop. Quit (ESC, 'q') saves if needed and ends the loop; 's' saves;
     * 'n' / right and 'p' / left navigate; 'd' drops the last box if there is one; 'c' clears
     * the boxes; '+' / '=' and '-' / '_' change the thickness within [1, 12]. Any other key
     * changes nothing.
     */
    method HandleKey(key: int) returns (quit: bool)
      requires Valid()
      modifies this
      ensures Valid()
      ensures quit <==> IsQuitKey(key)
      ensures quit ==>
        saved && labels == old(SavedIfNeeded()) && idx == old(idx) && boxes == old(boxes) && boxThick == old(boxThick)
      ensures key == 's' as int ==>
        saved && labels == old(labels)[files[idx].stem := LabelLines(boxes, files[idx])]
        && idx == old(idx) && boxes == old(boxes) && boxThick == old(boxThick)
      ensures key == 'd' as int ==>
        && labels == old(labels) && idx == old(idx) && boxThick == old(boxThick)
        && (if old(boxes) != [] then boxes == old(boxes)[..|old(boxes)| - 1] && !saved
            else boxes == old(boxes) && saved == old(saved))
      ensures key == 'c' as int ==>
        boxes == [] && !saved && labels == old(labels) && idx == old(idx) && boxThick == old(boxThick)
      ensures key == '+' as int || key == '=' as int ==>
        boxThick == Min(MAX_THICKNESS, old(boxThick) + 1) && boxes == old(boxes) && saved == old(saved) && idx == old(idx)
        && labels == old(labels)
      ensures key == '-' as int || key == '_' as int ==>
        boxThick == Max(MIN_THICKNESS, old(boxThick) - 1) && boxes == old(boxes) && saved == old(saved) && idx == old(idx)
        && labels == old(labels)
      ensures key == 'n' as int || key == KEY_RIGHT ==>
        && idx == (if old(idx) < |files| - 1 then old(idx) + 1 else old(idx)) && labels == old(SavedIfNeeded())
        && boxes == (if old(idx) < |files| - 1 then LoadedBoxes(labels, files[idx]) else old(boxes))
        && saved == (old(idx) == |files| - 1) && boxThick == old(boxThick)
      ensures key == 'p' as int || key == KEY_LEFT ==>
        && idx == (if old(idx) > 0 then old(idx) - 1 else old(idx)) && labels == old(SavedIfNeeded())
        && boxes == (if old(idx) > 0 then LoadedBoxes(labels, files[idx]) else old(boxes))
        && saved == (old(idx) == 0) && boxThick == old(boxThick)
      ensures !IsCommandKey(key) ==>
        idx == old(idx) && boxes == old(boxes) && saved == old(saved) && labels == old(labels) && boxThick == old(boxThick)
      ensures dragging == old(dragging) && startPt == old(startPt) && tempBox == old(tempBox)
    {
      quit := false;
      if key == KEY_ESC || key == 'q' as int {
        if !saved {
          SaveLabels();
        }
        quit := true;
      } else if key == 's' as int {
        SaveLabels();
      } else if key == 'n' as int || key == KEY_RIGHT {
        NextImage();
      } else if key == 'p' as int || key == KEY_LEFT {
        PrevImage();
      } else if key == 'd' as int {
        if boxes != [] {
          boxes := boxes[..|boxes| - 1];
          saved := false;
        }
      } else if key == 'c' as int {
        boxes := [];
        saved := false;
      } else if key == '+' as int || key == '=' as int {
        boxThick := Min(MAX_THICKNESS, boxThick + 1);
      } else if key == '-' as int || key == '_' as int {
        boxThick := Max(MIN_THICKNESS, boxThick - 1);
      }
    }

    /**
     * `run` over a stream of inputs: mouse events go to `on_mouse`, keys to the key handler,
     * until a quit key. Returns how many inputs were consumed; after a quit the label file of
     * the current image holds exactly its boxes.
     */
    method Run(inputs: seq<Input>) returns (consumed: nat)
      requires Valid()
      modifies this
      ensures Valid()
      ensures consumed <= |inputs|
      ensures forall j :: 0 <= j < consumed - 1 ==> !(inputs[j].Key? && IsQuitKey(inputs[j].code % 256))
      ensures consumed < |inputs| ==> consumed > 0 && inputs[consumed - 1].Key? && IsQuitKey(inputs[consumed - 1].code % 256)
      ensures consumed > 0 && inputs[consumed - 1].Key? && IsQuitKey(inputs[consumed - 1].code % 256) ==>
        saved && files[idx].stem in labels && labels[files[idx].stem] == LabelLines(boxes, files[idx])
    {
      consumed := 0;
      while consumed < |inputs|
        invariant Valid()
        invariant consumed <= |inputs|
        invariant forall j :: 0 <= j < consumed ==> !(inputs[j].Key? && IsQuitKey(inputs[j].code % 256))
        decreases |inputs| - consumed
      {
        var input := inputs[consumed];
        consumed := consumed + 1;
        match input {
          case Mouse(ev, x, y) =>
            OnMouse(ev, x, y);
          case Key(code) =>
            var quit := HandleKey(code % 256);
            if quit {
              return;
            }
        }
      }
    }
  }
}
